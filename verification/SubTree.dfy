/** The subscription tree in the heap: linked lists of children and of leaves, changed in place by
    mqtt3_sub_add and walked by mqtt3_sub_tree_process. The ghost value `tree` is the tree it stands for. */
module SubTree {
  import opened Topics
  import opened Trie
  import opened Matching

  class Client {
    const id: string
    var isSubscribe: bool
    var subs: seq<SubHier?>

    constructor (id: string)
      ensures this.id == id && !isSubscribe && subs == []
    {
      this.id := id;
      isSubscribe := false;
      subs := [];
    }

    /** What context->subs becomes when a leaf is linked under a node: the first free slot, or one more. */
    static function Recorded(slots: seq<SubHier?>, hier: SubHier): (r: seq<SubHier?>)
      ensures hier in r && forall h: SubHier | h in slots :: h in r
    {
      if slots == [] then [hier]
      else if slots[0] == null then
        assert forall h: SubHier | h in slots :: h in slots[1..];
        [hier] + slots[1..]
      else [slots[0]] + Recorded(slots[1..], hier)
    }

    static lemma {:induction false} RecordedAt(slots: seq<SubHier?>, i: nat, hier: SubHier)
      requires i < |slots| && slots[i] == null && forall j | 0 <= j < i :: slots[j] != null
      ensures Recorded(slots, hier) == slots[i := hier]
    {
      if i > 0 {
        RecordedAt(slots[1..], i - 1, hier);
        assert slots[i := hier] == [slots[0]] + slots[1..][i - 1 := hier];
      }
    }

    static lemma {:induction false} RecordedLast(slots: seq<SubHier?>, hier: SubHier)
      requires forall j | 0 <= j < |slots| :: slots[j] != null
      ensures Recorded(slots, hier) == slots + [hier]
    {
      if slots != [] {
        RecordedLast(slots[1..], hier);
        assert slots + [hier] == [slots[0]] + (slots[1..] + [hier]);
      }
    }

    method Record(hier: SubHier)
      modifies this`subs
      ensures subs == Recorded(old(subs), hier)
    {
      var i := 0;
      while i < |subs|
        invariant 0 <= i <= |subs| && subs == old(subs)
        invariant forall j | 0 <= j < i :: subs[j] != null
      {
        if subs[i] == null {
          RecordedAt(subs, i, hier);
          subs := subs[i := hier];
          return;
        }
        i := i + 1;
      }
      RecordedLast(subs, hier);
      subs := subs + [hier];
    }
  }

  class SubLeaf {
    var prev: SubLeaf?
    var next: SubLeaf?
    var context: Client
    var qos: int
    ghost var node: nat
    ghost var pos: nat

    constructor (context: Client, qos: int, ghost node: nat, ghost pos: nat)
      ensures prev == null && next == null && this.context == context && this.qos == qos
      ensures this.node == node && this.pos == pos
    {
      prev, next := null, null;
      this.context, this.qos := context, qos;
      this.node, this.pos := node, pos;
    }
  }

  class SubHier {
    var parent: SubHier?
    var children: SubHier?
    var next: SubHier?
    var subs: SubLeaf?
    var topic: string
    ghost var num: nat

    constructor (parent: SubHier?, topic: string, ghost num: nat)
      ensures this.parent == parent && this.topic == topic && this.num == num
      ensures children == null && next == null && subs == null
    {
      this.parent, this.topic, this.num := parent, topic, num;
      children, next, subs := null, null, null;
    }
  }

  class Broker {
    const clients: seq<Client>
    const subs: SubHier
    ghost var tree: Tree
    ghost var nodes: seq<SubHier>
    ghost var leaves: seq<seq<SubLeaf>>
    ghost var leafSet: set<SubLeaf>

    // ---------- the invariant ----------

    ghost function Ids(): (ids: seq<string>)
      ensures |ids| == |clients| && forall i | 0 <= i < |clients| :: ids[i] == clients[i].id
    {
      seq(|clients|, i requires 0 <= i < |clients| => clients[i].id)
    }

    ghost function At(n: nat): SubHier?
      reads this
    {
      if n < |nodes| then nodes[n] else null
    }

    /** Where the list of children of node n starts: the root's newest child, or the oldest of another node. */
    ghost function FirstKid(n: nat): SubHier?
      requires n < |tree|
      reads this
    {
      var kids := tree[n].kids;
      if kids == [] then null else if n == 0 then At(kids[|kids| - 1]) else At(kids[0])
    }

    /** What follows the j-th child of node n in that list. */
    ghost function NextKid(n: nat, j: nat): SubHier?
      requires n < |tree| && j < |tree[n].kids|
      reads this
    {
      var kids := tree[n].kids;
      if n == 0 then (if j == 0 then null else At(kids[j - 1]))
      else (if j + 1 == |kids| then null else At(kids[j + 1]))
    }

    /** The first child of the root, made by init_database, has no parent link; nothing reads those links. */
    ghost predicate NodeLinked(n: nat)
      requires n < |tree| == |nodes|
      reads this, nodes
    {
      && nodes[n].num == n
      && nodes[n].topic == tree[n].topic
      && nodes[n].parent == (if n <= 1 then null else At(tree[n].parent))
      && nodes[n].children == FirstKid(n)
      && forall j: nat | j < |tree[n].kids| :: KidLinked(n, j)
    }

    ghost predicate KidLinked(n: nat, j: nat)
      requires n < |tree| == |nodes| && j < |tree[n].kids|
      reads this, nodes
    {
      tree[n].kids[j] < |nodes| ==> nodes[tree[n].kids[j]].next == NextKid(n, j)
    }

    ghost function LeafAt(n: nat, i: nat): SubLeaf?
      reads this
    {
      if n < |leaves| && i < |leaves[n]| then leaves[n][i] else null
    }

    ghost predicate LeafLinked(n: nat, i: nat)
      requires n < |tree| == |leaves| && i < |leaves[n]| == |tree[n].leaves|
      reads this, leafSet
    {
      var leaf := leaves[n][i];
      && leaf in leafSet
      && leaf.node == n && leaf.pos == i
      && tree[n].leaves[i].client < |clients| && leaf.context == clients[tree[n].leaves[i].client]
      && leaf.qos == tree[n].leaves[i].qos
      && leaf.prev == (if i == 0 then null else LeafAt(n, i - 1))
      && leaf.next == LeafAt(n, i + 1)
    }

    ghost predicate LeavesLinked(n: nat)
      requires n < |tree| == |nodes| == |leaves|
      reads this, nodes, leafSet
    {
      && |leaves[n]| == |tree[n].leaves|
      && nodes[n].subs == LeafAt(n, 0)
      && forall i: nat | i < |leaves[n]| :: LeafLinked(n, i)
    }

    ghost predicate Valid()
      reads this, nodes, leafSet
    {
      && 2 <= |tree| == |nodes| == |leaves|
      && Wf(tree, Ids())
      && nodes[0] == subs
      && (forall n: nat | n < |tree| :: NodeLinked(n))
      && (forall n: nat | n < |tree| :: LeavesLinked(n))
    }

    constructor (clients: seq<Client>)
      ensures Valid() && fresh(nodes) && fresh(leafSet)
      ensures this.clients == clients && tree == START
    {
      var root := new SubHier(null, "", 0);
      var child := new SubHier(null, "", 1);
      root.children := child;
      this.clients := clients;
      this.subs := root;
      tree, nodes, leaves, leafSet := START, [root, child], [[], []], {};
      new;
      StartWf(Ids());
      assert forall n: nat | n < |tree| :: NodeLinked(n) && LeavesLinked(n) by {
        assert NodeLinked(0) && NodeLinked(1) && LeavesLinked(0) && LeavesLinked(1);
      }
    }

    /** hier is a node of this tree. */
    ghost predicate Node(hier: SubHier)
      reads this, hier
    {
      hier.num < |nodes| && nodes[hier.num] == hier
    }

    // ---------- what a write keeps ----------

    /** All of h but its list links is as before. */
    static twostate predicate SameLabel(h: SubHier)
      reads h
    {
      h.num == old(h.num) && h.topic == old(h.topic) && h.parent == old(h.parent) && h.subs == old(h.subs)
    }

    /** All of h but its list of leaves is as before. */
    static twostate predicate SameLinks(h: SubHier)
      reads h
    {
      && h.num == old(h.num) && h.topic == old(h.topic) && h.parent == old(h.parent)
      && h.children == old(h.children) && h.next == old(h.next)
    }

    /** The leaves are as before, whatever happened to the other fields of the nodes. */
    twostate lemma LeavesKept()
      requires |old(tree)| == |old(nodes)| == |old(leaves)| && |tree| == |nodes| == |leaves| == |old(nodes)| + 1
      requires forall m: nat | m < |old(nodes)| :: old(LeavesLinked(m)) && tree[m].leaves == old(tree)[m].leaves
      requires forall m: nat | m < |old(nodes)| :: leaves[m] == old(leaves)[m]
      requires forall m: nat | m < |old(nodes)| :: nodes[m] == old(nodes)[m] && nodes[m].subs == old(nodes[m].subs)
      requires leaves[|old(nodes)|] == [] && tree[|old(nodes)|].leaves == [] && nodes[|old(nodes)|].subs == null
      requires leafSet == old(leafSet) && unchanged(leafSet)
      ensures forall m: nat | m < |nodes| :: LeavesLinked(m)
    {
      forall m: nat | m < |nodes| ensures LeavesLinked(m) {
        if m < |old(nodes)| {
          assert forall i: nat :: LeafAt(m, i) == old(LeafAt(m, i));
          forall i: nat | i < |leaves[m]| ensures LeafLinked(m, i) {
            assert old(LeafLinked(m, i));
          }
        }
      }
    }

    /** The nodes after a child was appended to the list of node n, which is not the root. */
    twostate lemma ChildAppended(new n: nat, new topic: string)
      requires 2 <= |old(nodes)| == |old(tree)| && 0 < n < |old(tree)|
      requires Wf(old(tree), Ids()) && !HasKid(old(tree), n, topic)
      requires forall k: nat | k < |old(tree)| :: old(NodeLinked(k))
      requires tree == LinkChild(old(tree), n, topic) && |nodes| == |tree| && old(nodes) == nodes[..|old(nodes)|]
      requires forall k: nat | k < |old(nodes)| :: SameLabel(nodes[k])
      requires forall k: nat | k < |old(nodes)| && !IsLastKid(old(tree), n, k) :: nodes[k].next == old(nodes[k].next)
      requires forall k: nat | k < |old(nodes)| && IsLastKid(old(tree), n, k) :: nodes[k].next == nodes[|old(nodes)|]
      requires forall k: nat | k < |old(nodes)| && k != n :: nodes[k].children == old(nodes[k].children)
      requires nodes[n].children == if old(tree)[n].kids == [] then nodes[|old(nodes)|] else old(nodes[n].children)
      requires var h := nodes[|old(nodes)|];
               h.num == |old(nodes)| && h.topic == topic && h.parent == nodes[n] && h.children == h.next == null
      ensures forall m: nat | m < |nodes| :: NodeLinked(m)
    {
      var t := old(tree);
      forall m: nat | m < |t| ensures NodeLinked(m) {
        assert old(NodeLinked(m)) && NodeOk(t, Ids(), m);
        forall j: nat | j < |tree[m].kids| ensures KidLinked(m, j) {
          if j < |t[m].kids| {
            var k := t[m].kids[j];
            assert KidOk(t, m, k);
            assert j + 1 < |t[m].kids| ==> KidOk(t, m, t[m].kids[j + 1]);
            if IsLastKid(t, n, k) {
              SameKid(t, Ids(), m, j, n, |t[n].kids| - 1);
            } else {
              assert old(KidLinked(m, j)) && NextKid(m, j) == old(NextKid(m, j));
            }
          }
        }
      }
    }

    /** The nodes after a child was put in front of the root's list. */
    twostate lemma RootChildPrepended(new topic: string)
      requires 2 <= |old(nodes)| == |old(tree)|
      requires Wf(old(tree), Ids()) && !HasKid(old(tree), 0, topic)
      requires forall k: nat | k < |old(tree)| :: old(NodeLinked(k))
      requires tree == LinkChild(old(tree), 0, topic) && |nodes| == |tree| && old(nodes) == nodes[..|old(nodes)|]
      requires forall k: nat | k < |old(nodes)| :: SameLabel(nodes[k]) && nodes[k].next == old(nodes[k].next)
      requires forall k: nat | 0 < k < |old(nodes)| :: nodes[k].children == old(nodes[k].children)
      requires nodes[0].children == nodes[|old(nodes)|]
      requires var h := nodes[|old(nodes)|];
               h.num == |old(nodes)| && h.topic == topic && h.parent == nodes[0] && h.children == null
      requires nodes[|old(nodes)|].next == old(nodes[0].children)
      ensures forall m: nat | m < |nodes| :: NodeLinked(m)
    {
      var t := old(tree);
      forall m: nat | m < |t| ensures NodeLinked(m) {
        assert old(NodeLinked(m)) && NodeOk(t, Ids(), m);
        forall j: nat | j < |tree[m].kids| ensures KidLinked(m, j) {
          if j < |t[m].kids| {
            assert KidOk(t, m, t[m].kids[j]);
            assert j + 1 < |t[m].kids| ==> KidOk(t, m, t[m].kids[j + 1]);
            assert j > 0 ==> KidOk(t, m, t[m].kids[j - 1]);
            assert old(KidLinked(m, j)) && NextKid(m, j) == old(NextKid(m, j));
          } else if j > 0 {
            assert KidOk(t, m, t[m].kids[j - 1]);
          }
        }
      }
    }

    /** The nodes are as before, whatever happened to the leaves of node n. */
    twostate lemma NodesKept(new n: nat)
      requires |tree| == |nodes| && nodes == old(nodes) && OnlyLeaves(old(tree), tree, n)
      requires forall m: nat | m < |nodes| :: old(NodeLinked(m)) && SameLinks(nodes[m])
      ensures forall m: nat | m < |nodes| :: NodeLinked(m)
    {
      forall m: nat | m < |nodes| ensures NodeLinked(m) {
        assert old(NodeLinked(m));
        forall j: nat | j < |tree[m].kids| ensures KidLinked(m, j) {
          assert old(KidLinked(m, j)) && NextKid(m, j) == old(NextKid(m, j));
        }
      }
    }

    /** All of leaf but its QoS and its link to the next one is as before. */
    static twostate predicate SameLeaf(leaf: SubLeaf)
      reads leaf
    {
      && leaf.node == old(leaf.node) && leaf.pos == old(leaf.pos)
      && leaf.context == old(leaf.context) && leaf.prev == old(leaf.prev)
    }

    /** The leaves after the QoS of leaf (n, i) was set. */
    twostate lemma LeafQosSet(new n: nat, new i: nat, new qos: int)
      requires |old(tree)| == |nodes| == |leaves| && n < |nodes| && nodes == old(nodes) && leaves == old(leaves)
      requires i < |leaves[n]| == |old(tree)[n].leaves| && tree == SetQos(old(tree), n, i, qos)
      requires forall m: nat | m < |nodes| :: old(LeavesLinked(m)) && nodes[m].subs == old(nodes[m].subs)
      requires leafSet == old(leafSet)
      requires forall x | x in leafSet :: SameLeaf(x) && x.next == old(x.next)
      requires forall x | x in leafSet && x != leaves[n][i] :: x.qos == old(x.qos)
      requires leaves[n][i].qos == qos
      ensures forall m: nat | m < |nodes| :: LeavesLinked(m)
    {
      assert old(LeavesLinked(n)) && old(LeafLinked(n, i));
      forall m: nat | m < |nodes| ensures LeavesLinked(m) {
        assert old(LeavesLinked(m));
        assert forall k: nat :: LeafAt(m, k) == old(LeafAt(m, k));
        forall k: nat | k < |leaves[m]| ensures LeafLinked(m, k) {
          assert old(LeafLinked(m, k));
        }
      }
    }

    /** The leaves after one was linked last in the list of node n. */
    twostate lemma LeafAppended(new n: nat, new leaf: SubLeaf, new client: nat)
      requires |old(tree)| == |nodes| == |old(leaves)| && n < |nodes| && nodes == old(nodes) && client < |clients|
      requires forall m: nat | m < |nodes| :: old(LeavesLinked(m))
      requires tree == LinkLeaf(old(tree), n, Leaf(client, leaf.qos))
      requires leaves == old(leaves)[n := old(leaves)[n] + [leaf]] && leafSet == old(leafSet) + {leaf}
      requires forall m: nat | m < |nodes| && m != n :: nodes[m].subs == old(nodes[m].subs)
      requires nodes[n].subs == leaves[n][0]
      requires forall x | x in old(leafSet) :: SameLeaf(x) && x.qos == old(x.qos)
      requires forall x | x in old(leafSet) && !IsLast(x, n) :: x.next == old(x.next)
      requires old(leaves)[n] != [] ==> old(leaves)[n][|old(leaves)[n]| - 1].next == leaf
      requires leaf.node == n && leaf.pos == |old(leaves)[n]| && leaf.next == null && leaf.context == clients[client]
      requires leaf.prev == if old(leaves)[n] == [] then null else old(leaves)[n][|old(leaves)[n]| - 1]
      ensures forall m: nat | m < |nodes| :: LeavesLinked(m)
    {
      forall m: nat | m < |nodes| ensures LeavesLinked(m) {
        assert old(LeavesLinked(m));
        forall k: nat | k < |leaves[m]| ensures LeafLinked(m, k) {
          if k < |old(leaves)[m]| {
            assert old(LeafLinked(m, k));
            assert k > 0 ==> LeafAt(m, k - 1) == old(LeafAt(m, k - 1));
            assert !(m == n && k + 1 == |old(leaves)[n]|) ==> LeafAt(m, k + 1) == old(LeafAt(m, k + 1));
          }
        }
        assert m != n ==> LeafAt(m, 0) == old(LeafAt(m, 0));
      }
    }

    /** x was the last leaf in the list of node n. */
    twostate predicate IsLast(x: SubLeaf, new n: nat)
      requires n < |old(leaves)|
      reads x
    {
      x.node == n && x.pos + 1 == |old(leaves)[n]|
    }

    /** k is the last child of n. */
    static predicate IsLastKid(t: Tree, n: nat, k: nat)
      requires n < |t|
    {
      t[n].kids != [] && t[n].kids[|t[n].kids| - 1] == k
    }

    // ---------- the writes ----------

    /** A child list's new last node (broker/substree.c:192-207): the writes. */
    method WriteChild(hier: SubHier, last: SubHier?, topic: string) returns (branch: SubHier)
      requires |tree| == |nodes| == |leaves| && Node(hier) && hier.num != 0
      requires forall m: nat | m < |nodes| :: nodes[m].num == m
      requires last == if tree[hier.num].kids == [] then null else At(tree[hier.num].kids[|tree[hier.num].kids| - 1])
      requires tree[hier.num].kids == [] || tree[hier.num].kids[|tree[hier.num].kids| - 1] < |nodes|
      modifies this`tree, this`nodes, this`leaves, nodes
      ensures tree == LinkChild(old(tree), old(hier.num), topic) && nodes == old(nodes) + [branch] && fresh(branch)
      ensures leaves == old(leaves) + [[]]
      ensures forall k: nat | k < |old(nodes)| :: SameLabel(nodes[k])
      ensures forall k: nat | k < |old(nodes)| && !old(IsLastKid(tree, hier.num, k)) :: nodes[k].next == old(nodes[k].next)
      ensures last != null ==> last.next == branch
      ensures forall k: nat | k < |old(nodes)| && k != hier.num :: nodes[k].children == old(nodes[k].children)
      ensures hier.children == if old(tree[hier.num].kids) == [] then branch else old(hier.children)
      ensures branch.num == |old(nodes)| && branch.topic == topic && branch.parent == hier
      ensures branch.children == branch.next == null && branch.subs == null
    {
      branch := new SubHier(hier, topic, |tree|);
      if last == null {
        hier.children := branch;
      } else {
        last.next := branch;
      }
      tree, nodes, leaves := LinkChild(tree, hier.num, topic), nodes + [branch], leaves + [[]];
    }

    method AppendChild(hier: SubHier, last: SubHier?, topic: string) returns (branch: SubHier)
      requires Valid() && Node(hier) && hier.num != 0 && !HasKid(tree, hier.num, topic)
      requires last == if tree[hier.num].kids == [] then null else At(tree[hier.num].kids[|tree[hier.num].kids| - 1])
      modifies this`tree, this`nodes, this`leaves, nodes
      ensures Valid() && Node(branch)
      ensures tree == LinkChild(old(tree), old(hier.num), topic) && branch.num == |old(tree)|
      ensures nodes == old(nodes) + [branch] && fresh(branch)
    {
      ghost var n, t := hier.num, tree;
      LinkChildWf(t, Ids(), n, topic);
      assert forall m: nat | m < |nodes| :: nodes[m].num == m by {
        forall m: nat | m < |nodes| ensures nodes[m].num == m {
          assert NodeLinked(m);
        }
      }
      assert t[n].kids == [] || t[n].kids[|t[n].kids| - 1] < |nodes| by {
        assert NodeOk(t, Ids(), n) && (t[n].kids != [] ==> KidOk(t, n, t[n].kids[|t[n].kids| - 1]));
      }
      branch := WriteChild(hier, last, topic);
      ChildAppended(n, topic);
      LeavesKept();
    }

    /** A new first child of the root, finished before it is linked (broker/substree.c:231-250): the writes. */
    method WriteRootChild(topic: string) returns (child: SubHier)
      requires |tree| == |nodes| == |leaves| > 0 && nodes[0] == subs
      requires forall m: nat | m < |nodes| :: nodes[m].num == m
      modifies this`tree, this`nodes, this`leaves, subs`children
      ensures tree == LinkChild(old(tree), 0, topic) && nodes == old(nodes) + [child] && fresh(child)
      ensures leaves == old(leaves) + [[]]
      ensures forall k: nat | 0 < k < |old(nodes)| :: nodes[k].children == old(nodes[k].children)
      ensures subs.children == child && child.next == old(subs.children)
      ensures child.num == |old(nodes)| && child.topic == topic && child.parent == subs
      ensures child.children == null && child.subs == null
    {
      child := new SubHier(subs, topic, |tree|);
      if subs.children != null {
        child.next := subs.children;
      } else {
        child.next := null;
      }
      subs.children := child;
      tree, nodes, leaves := LinkChild(tree, 0, topic), nodes + [child], leaves + [[]];
    }

    method PrependRootChild(topic: string) returns (child: SubHier)
      requires Valid() && !HasKid(tree, 0, topic)
      modifies this`tree, this`nodes, this`leaves, subs`children
      ensures Valid() && Node(child)
      ensures tree == LinkChild(old(tree), 0, topic) && child.num == |old(tree)|
      ensures nodes == old(nodes) + [child] && fresh(child)
    {
      LinkChildWf(tree, Ids(), 0, topic);
      assert forall m: nat | m < |nodes| :: nodes[m].num == m by {
        forall m: nat | m < |nodes| ensures nodes[m].num == m {
          assert NodeLinked(m);
        }
      }
      child := WriteRootChild(topic);
      RootChildPrepended(topic);
      LeavesKept();
    }

    /** The QoS of a leaf that is there already (broker/substree.c:143-146). */
    method SetLeafQos(leaf: SubLeaf, ghost n: nat, ghost i: nat, qos: int)
      requires Valid() && n < |leaves| && leaf == LeafAt(n, i)
      modifies this`tree, leafSet
      ensures Valid()
      ensures i < |old(tree)[n].leaves| && tree == SetQos(old(tree), n, i, qos)
      ensures LeavesOk(Ids(), tree[n].leaves)
    {
      assert LeavesLinked(n) && LeafLinked(n, i) && NodeOk(tree, Ids(), n);
      LeavesWf(tree, SetQos(tree, n, i, qos), Ids(), n);
      leaf.qos := qos;
      tree := SetQos(tree, n, i, qos);
      assert forall m: nat | m < |nodes| :: NodeLinked(m) by {
        NodesKept(n);
      }
      assert forall m: nat | m < |nodes| :: LeavesLinked(m) by {
        LeafQosSet(n, i, qos);
      }
    }

    /** The link from the last leaf of a list, or from the node, to a new leaf (broker/substree.c:172-178). */
    static method LinkLast(hier: SubHier, last: SubLeaf?, leaf: SubLeaf)
      requires last != leaf
      modifies hier`subs, if last != null then {last} else {}, leaf`prev
      ensures hier.subs == if last == null then leaf else old(hier.subs)
      ensures leaf.prev == last
      ensures last != null ==> last.next == leaf && last.qos == old(last.qos) && SameLeaf(last)
    {
      if last != null {
        last.next := leaf;
        leaf.prev := last;
      } else {
        hier.subs := leaf;
        leaf.prev := null;
      }
    }

    /** What an append to the leaves of node n needs to know of the lists. */
    ghost predicate LeafList(n: nat)
      requires n < |leaves| == |nodes|
      reads this, nodes, leafSet
    {
      && (forall m: nat | m < |nodes| :: nodes[m].num == m)
      && nodes[n].subs == LeafAt(n, 0)
      && (leaves[n] != [] ==>
            var last := leaves[n][|leaves[n]| - 1]; last in leafSet && last.node == n && last.pos + 1 == |leaves[n]|)
    }

    /** A leaf list's new last leaf (broker/substree.c:150-178): the writes. */
    method WriteLeaf(hier: SubHier, last: SubLeaf?, context: Client, ghost c: nat, qos: int) returns (leaf: SubLeaf)
      requires |tree| == |nodes| == |leaves| && Node(hier) && LeafList(hier.num)
      requires var k := |leaves[hier.num]|; last == if k == 0 then null else LeafAt(hier.num, k - 1)
      modifies this`tree, this`leaves, this`leafSet, hier`subs, leafSet
      ensures tree == LinkLeaf(old(tree), hier.num, Leaf(c, qos)) && fresh(leaf)
      ensures leaves == old(leaves)[hier.num := old(leaves)[hier.num] + [leaf]] && leafSet == old(leafSet) + {leaf}
      ensures forall m: nat | m < |nodes| && m != hier.num :: nodes[m].subs == old(nodes[m].subs)
      ensures hier.subs == leaves[hier.num][0]
      ensures forall x | x in old(leafSet) :: SameLeaf(x) && x.qos == old(x.qos)
      ensures forall x | x in old(leafSet) && !IsLast(x, hier.num) :: x.next == old(x.next)
      ensures last != null ==> last.next == leaf
      ensures leaf.node == hier.num && leaf.pos == |old(leaves)[hier.num]| && leaf.prev == last && leaf.next == null
      ensures leaf.context == context && leaf.qos == qos
    {
      ghost var n := hier.num;
      leaf := new SubLeaf(context, qos, n, |leaves[n]|);
      LinkLast(hier, last, leaf);
      tree := LinkLeaf(tree, n, Leaf(c, qos));
      leaves, leafSet := leaves[n := leaves[n] + [leaf]], leafSet + {leaf};
    }

    method AppendLeaf(hier: SubHier, last: SubLeaf?, context: Client, ghost c: nat, qos: int)
      requires Valid() && Node(hier) && c < |clients| && clients[c] == context
      requires CanLinkLeaf(tree, Ids(), hier.num, Leaf(c, qos))
      requires var k := |leaves[hier.num]|; last == if k == 0 then null else LeafAt(hier.num, k - 1)
      modifies this`tree, this`leaves, this`leafSet, hier`subs, leafSet
      ensures Valid() && fresh(leafSet - old(leafSet))
      ensures tree == LinkLeaf(old(tree), hier.num, Leaf(c, qos))
    {
      ghost var n, k := hier.num, |leaves[hier.num]|;
      assert LeafList(n) by {
        assert NodeLinked(n) && LeavesLinked(n) && (k > 0 ==> LeafLinked(n, k - 1));
        forall m: nat | m < |nodes| ensures nodes[m].num == m {
          assert NodeLinked(m);
        }
      }
      LinkLeafWf(tree, Ids(), n, Leaf(c, qos));
      var leaf := WriteLeaf(hier, last, context, c, qos);
      NodesKept(n);
      LeafAppended(n, leaf, c);
    }

    /** The end of the descent (broker/substree.c:138-181): set the QoS of the id's leaf, or link a new one last. */
    method PutLeafOn(hier: SubHier, context: Client, ghost c: nat, qos: int)
      requires Valid() && Node(hier) && c < |clients| && clients[c] == context
      modifies this`tree, this`leaves, this`leafSet, hier`subs, leafSet, context`subs
      ensures Valid() && nodes == old(nodes) && fresh(leafSet - old(leafSet))
      ensures tree == PutLeaf(old(tree), Ids(), hier.num, c, qos)
      ensures context.subs ==
              if HasLeaf(Ids(), old(tree)[hier.num].leaves, context.id) then old(context.subs)
              else Client.Recorded(old(context.subs), hier)
    {
      ghost var n, i := hier.num, 0;
      assert NodeLinked(n) && LeavesLinked(n);
      var leaf := hier.subs;
      var last: SubLeaf? := null;
      while leaf != null
        invariant i <= |leaves[n]| && leaf == LeafAt(n, i) && last == if i == 0 then null else LeafAt(n, i - 1)
        invariant forall k: nat | k < i :: !IsLeafOf(Ids(), tree[n].leaves, context.id, k)
        decreases |leaves[n]| - i
      {
        assert LeafLinked(n, i);
        if leaf.context.id == context.id {
          PutLeafCases(tree, Ids(), n, c, qos, i);
          SetLeafQos(leaf, n, i, qos);
          return;
        }
        last := leaf;
        leaf := leaf.next;
        i := i + 1;
      }
      PutLeafCases(tree, Ids(), n, c, qos, i);
      context.Record(hier);
      AppendLeaf(hier, last, context, c, qos);
    }

    // ---------- mqtt3_sub_add ----------

    /** The scan of a child list below the root (broker/substree.c:183-190). */
    method FindBranch(hier: SubHier, topic: string) returns (branch: SubHier?, last: SubHier?)
      requires Valid() && Node(hier) && hier.num != 0
      ensures branch == null ==> !HasKid(tree, hier.num, topic)
      ensures branch == null ==>
                last == if tree[hier.num].kids == [] then null else At(tree[hier.num].kids[|tree[hier.num].kids| - 1])
      ensures branch != null ==> HasKid(tree, hier.num, topic) && branch == At(KidNamed(tree, hier.num, topic))
    {
      ghost var n, j := hier.num, 0;
      ghost var kids := tree[n].kids;
      assert NodeLinked(n) && NodeOk(tree, Ids(), n);
      branch, last := hier.children, null;
      while branch != null
        invariant j <= |kids| && branch == if j == |kids| then null else At(kids[j])
        invariant last == if j == 0 then null else At(kids[j - 1])
        invariant NoneNamed(tree, n, 0, j, topic)
        decreases |kids| - j
      {
        assert KidOk(tree, n, kids[j]) && NodeLinked(kids[j]) && KidLinked(n, j);
        if branch.topic == topic {
          KidTopicsDiffer(tree, Ids(), n, kids[j], KidNamed(tree, n, topic));
          return;
        }
        assert j + 1 < |kids| ==> KidOk(tree, n, kids[j + 1]);
        last := branch;
        branch := branch.next;
        j := j + 1;
      }
    }

    /** The scan of the root's list, newest child first (broker/substree.c:222-229). */
    method FindRootChild(topic: string) returns (hier: SubHier?)
      requires Valid()
      ensures hier == null ==> !HasKid(tree, 0, topic)
      ensures hier != null ==> HasKid(tree, 0, topic) && hier == At(KidNamed(tree, 0, topic))
    {
      ghost var kids := tree[0].kids;
      ghost var j: nat := |kids|;
      assert NodeLinked(0) && NodeOk(tree, Ids(), 0);
      hier := subs.children;
      while hier != null
        invariant j <= |kids| && hier == if j == 0 then null else At(kids[j - 1])
        invariant NoneNamed(tree, 0, j, |kids|, topic)
        decreases j
      {
        assert KidOk(tree, 0, kids[j - 1]) && NodeLinked(kids[j - 1]) && KidLinked(0, j - 1);
        if hier.topic == topic {
          KidTopicsDiffer(tree, Ids(), 0, kids[j - 1], KidNamed(tree, 0, topic));
          return;
        }
        assert j > 1 ==> KidOk(tree, 0, kids[j - 2]);
        hier := hier.next;
        j := j - 1;
      }
    }

    /** A child that a scan has found. */
    lemma KidFound(n: nat, topic: string)
      requires Valid() && n < |tree| && HasKid(tree, n, topic)
      ensures var k := KidNamed(tree, n, topic);
        n < k < |nodes| && nodes[k].num == k && Node(nodes[k])
    {
      var k := KidNamed(tree, n, topic);
      assert NodeLinked(k) && NodeOk(tree, Ids(), n) && KidOk(tree, n, k);
    }

    /** The nodes from the n-th on are newly allocated. */
    twostate predicate NewNodes(new n: nat)
      reads this
    {
      forall k: nat | n <= k < |nodes| :: fresh(nodes[k])
    }

    /** The node of an add is recorded with the client, unless the client's id had a leaf there before. */
    ghost predicate EndsAt(end: nat, context: Client, t: Tree, was: seq<SubHier?>)
      reads this, context`subs
    {
      && end < |nodes|
      && context.subs == if HadLeaf(t, Ids(), end, context.id) then was else Client.Recorded(was, nodes[end])
    }

    /** A node that has just been linked has no leaf. */
    lemma EndsAtLinked(end: nat, context: Client, t: Tree, n: nat, topic: string, was: seq<SubHier?>)
      requires n < |t| && EndsAt(end, context, LinkChild(t, n, topic), was)
      ensures EndsAt(end, context, t, was)
    {
    }

    /** _sub_add: descend by the tokens, linking what is missing. */
    method AddBelow(context: Client, ghost c: nat, qos: int, hier: SubHier, tokens: seq<string>)
      requires Valid() && Node(hier) && hier.num != 0 && c < |clients| && clients[c] == context
      modifies this`tree, this`nodes, this`leaves, this`leafSet, nodes, leafSet, context`subs
      ensures Valid() && old(nodes) <= nodes && NewNodes(|old(nodes)|) && fresh(leafSet - old(leafSet))
      ensures tree == AddAt(old(tree), Ids(), old(hier.num), tokens, c, qos)
      ensures EndsAt(EndOf(old(tree), old(hier.num), tokens), context, old(tree), old(context.subs))
      decreases |tokens|, 1
    {
      if tokens == [] {
        PutLeafOn(hier, context, c, qos);
      } else {
        var branch, last := FindBranch(hier, tokens[0]);
        if branch != null {
          KidFound(hier.num, tokens[0]);
          AddBelow(context, c, qos, branch, tokens[1..]);
        } else {
          AddMissing(context, c, qos, hier, last, tokens);
        }
      }
    }

    /** The rest of it from a level that is not there (broker/substree.c:191-208). */
    method AddMissing(context: Client, ghost c: nat, qos: int, hier: SubHier, last: SubHier?, tokens: seq<string>)
      requires Valid() && Node(hier) && hier.num != 0 && c < |clients| && clients[c] == context
      requires tokens != [] && !HasKid(tree, hier.num, tokens[0])
      requires last == if tree[hier.num].kids == [] then null else At(tree[hier.num].kids[|tree[hier.num].kids| - 1])
      modifies this`tree, this`nodes, this`leaves, this`leafSet, nodes, leafSet, context`subs
      ensures Valid() && old(nodes) <= nodes && NewNodes(|old(nodes)|) && fresh(leafSet - old(leafSet))
      ensures tree == AddAt(old(tree), Ids(), old(hier.num), tokens, c, qos)
      ensures EndsAt(EndOf(old(tree), old(hier.num), tokens), context, old(tree), old(context.subs))
      decreases |tokens|, 0
    {
      ghost var n, t, was := hier.num, tree, context.subs;
      var branch := AppendChild(hier, last, tokens[0]);
      AddBelow(context, c, qos, branch, tokens[1..]);
      EndsAtLinked(EndOf(t, n, tokens), context, t, n, tokens[0], was);
    }

    /** The rest of mqtt3_sub_add from a first token that is not there (broker/substree.c:230-253). */
    method AddMissingRoot(context: Client, ghost c: nat, qos: int, tokens: seq<string>, ghost path: seq<string>)
      requires Valid() && c < |clients| && clients[c] == context
      requires tokens != [] && path == [tokens[0]] + tokens && !HasKid(tree, 0, tokens[0])
      modifies this`tree, this`nodes, this`leaves, this`leafSet, nodes, leafSet, context`subs
      ensures Valid() && old(nodes) <= nodes && NewNodes(|old(nodes)|) && fresh(leafSet - old(leafSet))
      ensures tree == AddAt(old(tree), Ids(), 0, path, c, qos)
      ensures EndsAt(EndOf(old(tree), 0, path), context, old(tree), old(context.subs))
    {
      ghost var t, was := tree, context.subs;
      assert path[1..] == tokens;
      var child := PrependRootChild(tokens[0]);
      AddBelow(context, c, qos, child, tokens);
      EndsAtLinked(EndOf(t, 0, path), context, t, 0, tokens[0], was);
    }

    /** mqtt3_sub_add, all of it under root_lock: the root's child for the first token, then all the tokens below it. */
    method Add(context: Client, ghost c: nat, sub: string, qos: int)
      requires Valid() && c < |clients| && clients[c] == context
      modifies this`tree, this`nodes, this`leaves, this`leafSet, nodes, leafSet, context`subs
      ensures Valid() && old(nodes) <= nodes && NewNodes(|old(nodes)|) && fresh(leafSet - old(leafSet))
      ensures tree == AddSub(old(tree), Ids(), Sub(sub, c, qos))
      ensures EndsAt(EndOf(old(tree), 0, PathOf(sub)), context, old(tree), old(context.subs))
    {
      var tokens := Tokenise(sub);
      assert PathOf(sub)[1..] == tokens;
      var hier := FindRootChild(tokens[0]);
      if hier != null {
        KidFound(0, tokens[0]);
        AddBelow(context, c, qos, hier, tokens);
      } else {
        AddMissingRoot(context, c, qos, tokens, PathOf(sub));
      }
    }

    // ---------- mqtt3_sub_tree_process ----------

    ghost function Flags(): (flags: seq<bool>)
      reads clients
      ensures |flags| == |clients| && forall i | 0 <= i < |clients| :: flags[i] == clients[i].isSubscribe
    {
      seq(|clients|, i requires 0 <= i < |clients| reads clients => clients[i].isSubscribe)
    }

    /** The clients behind a list of callbacks. */
    ghost function Contexts(calls: seq<(nat, nat)>): seq<Client>
      reads this
    {
      if calls == [] then [] else Context(calls[0]) + Contexts(calls[1..])
    }

    ghost function Context(call: (nat, nat)): seq<Client>
      reads this
    {
      if call.0 < |tree| && call.1 < |tree[call.0].leaves| && tree[call.0].leaves[call.1].client < |clients|
      then [clients[tree[call.0].leaves[call.1].client]] else []
    }

    lemma {:induction false} ContextsConcat(a: seq<(nat, nat)>, b: seq<(nat, nat)>)
      ensures Contexts(a + b) == Contexts(a) + Contexts(b)
    {
      if a == [] {
        assert a + b == b;
      } else {
        assert (a + b)[1..] == a[1..] + b;
        ContextsConcat(a[1..], b);
      }
    }

    /** The clients called back for a list of visited nodes. */
    ghost function Called(visits: seq<nat>): seq<Client>
      reads this, clients
    {
      Contexts(Calls(tree, Flags(), visits))
    }

    lemma CalledConcat(a: seq<nat>, b: seq<nat>)
      ensures Called(a + b) == Called(a) + Called(b)
    {
      CallsConcat(tree, Flags(), a, b);
      ContextsConcat(Calls(tree, Flags(), a), Calls(tree, Flags(), b));
    }

    lemma CalledNone(called: seq<Client>)
      ensures called + Called([]) == called
    {
    }

    /** What was called so far and what the rest of a walk will call make up the whole. */
    ghost predicate Splits(called: seq<Client>, rest: seq<Client>, all: seq<Client>)
    {
      called + rest == all
    }

    lemma SplitsNext(called: seq<Client>, more: seq<Client>, rest: seq<Client>, all: seq<Client>)
      requires Splits(called, more + rest, all)
      ensures Splits(called + more, rest, all)
    {
      assert called + (more + rest) == (called + more) + rest;
    }

    lemma ProcessRound(n: nat, i: nat, called: seq<Client>, all: seq<Client>)
      requires n < |tree| && i < |tree[n].leaves| && tree[n].leaves[i].client < |clients|
      requires Splits(called, Contexts(LeafCalls(tree, Flags(), n, i)), all)
      ensures var c := clients[tree[n].leaves[i].client];
              var rest := Contexts(LeafCalls(tree, Flags(), n, i + 1));
              && (c.isSubscribe ==> Splits(called + [c], rest, all))
              && (!c.isSubscribe ==> Splits(called, rest, all))
    {
      var c := clients[tree[n].leaves[i].client];
      var calls := LeafCalls(tree, Flags(), n, i + 1);
      if c.isSubscribe {
        assert LeafCalls(tree, Flags(), n, i) == [(n, i)] + calls;
        ContextOne(n, i, calls);
        assert (called + [c]) + Contexts(calls) == called + ([c] + Contexts(calls));
      } else {
        assert LeafCalls(tree, Flags(), n, i) == calls;
      }
    }

    lemma ContextOne(n: nat, i: nat, calls: seq<(nat, nat)>)
      requires n < |tree| && i < |tree[n].leaves| && tree[n].leaves[i].client < |clients|
      ensures Contexts([(n, i)] + calls) == [clients[tree[n].leaves[i].client]] + Contexts(calls)
    {
      assert ([(n, i)] + calls)[1..] == calls;
    }

    /** Where a walk stands with its j-th child of node n, or with j children of the root to come. */
    ghost function BranchFrom(n: nat, j: nat): SubHier?
      requires n < |tree|
      reads this
    {
      if j < |tree[n].kids| then At(tree[n].kids[j]) else null
    }

    ghost function RootFrom(j: nat): SubHier?
      requires 0 < |tree| && j <= |tree[0].kids|
      reads this
    {
      if j == 0 then null else At(tree[0].kids[j - 1])
    }

    /** The links a walk follows. */
    lemma NextBranch(n: nat, j: nat)
      requires Valid() && 0 < n < |tree| && j < |tree[n].kids|
      ensures BranchFrom(n, j) != null && BranchFrom(n, j).next == BranchFrom(n, j + 1)
    {
      assert NodeOk(tree, Ids(), n) && KidOk(tree, n, tree[n].kids[j]) && NodeLinked(n) && KidLinked(n, j);
    }

    lemma NextRootChild(j: nat)
      requires Valid() && 0 < j <= |tree[0].kids|
      ensures RootFrom(j) != null && RootFrom(j).next == RootFrom(j - 1)
    {
      assert NodeOk(tree, Ids(), 0) && KidOk(tree, 0, tree[0].kids[j - 1]) && NodeLinked(0) && KidLinked(0, j - 1);
    }

    lemma SearchRound(n: nat, j: nat, tokens: seq<string>, called: seq<Client>)
      requires n < |tree| && j < |tree[n].kids| && KidOk(tree, n, tree[n].kids[j])
      requires Searching(n, j, tokens, called)
      ensures Searching(n, j + 1, tokens, called + Called(VisitsBranch(tree, tree[n].kids[j], tokens)))
    {
      var here, rest := VisitsBranch(tree, tree[n].kids[j], tokens), VisitsFrom(tree, n, j + 1, tokens);
      CalledConcat(here, rest);
      SplitsNext(called, Called(here), Called(rest), Called(Visits(tree, n, tokens)));
    }

    lemma RootRound(j: nat, tokens: seq<string>, called: seq<Client>, all: seq<Client>)
      requires 0 < |tree| && 0 < j <= |tree[0].kids| && KidOk(tree, 0, tree[0].kids[j - 1]) && tokens != []
      requires RootSearching(j, tokens, called, all)
      ensures RootSearching(j - 1, tokens, called + Called(RootBranch(tree, tree[0].kids[j - 1], tokens)), all)
    {
      var here, rest := RootBranch(tree, tree[0].kids[j - 1], tokens), RootVisits(tree, j - 1, tokens);
      CalledConcat(here, rest);
      SplitsNext(called, Called(here), Called(rest), all);
    }

    lemma RootSearchStarts(tokens: seq<string>)
      requires Valid()
      ensures RootSearching(|tree[0].kids|, tokens, [], Called(RootVisits(tree, |tree[0].kids|, tokens))) && subs.children == RootFrom(|tree[0].kids|)
    {
      assert NodeLinked(0);
    }

    /** The end of a list of children is reached only there. */
    lemma BranchEnds(n: nat, j: nat)
      requires Valid() && n < |tree| && j <= |tree[n].kids|
      ensures BranchFrom(n, j) == null <==> j == |tree[n].kids|
    {
      assert NodeOk(tree, Ids(), n);
      assert j < |tree[n].kids| ==> KidOk(tree, n, tree[n].kids[j]);
    }

    lemma RootEnds(j: nat)
      requires Valid() && j <= |tree[0].kids|
      ensures RootFrom(j) == null <==> j == 0
    {
      assert NodeOk(tree, Ids(), 0);
      assert j > 0 ==> KidOk(tree, 0, tree[0].kids[j - 1]);
    }

    lemma RootSearchEnds(tokens: seq<string>, called: seq<Client>, all: seq<Client>)
      requires 0 < |tree| && RootSearching(0, tokens, called, all)
      ensures called == all
    {
    }

    /** The rest of the leaves of node n, from the i-th on, and all of them. */
    ghost predicate Processing(n: nat, i: nat, called: seq<Client>)
      requires n < |tree|
      reads this, clients
    {
      Splits(called, Contexts(LeafCalls(tree, Flags(), n, i)), Called([n]))
    }

    lemma ProcessStarts(n: nat)
      requires Valid() && n < |tree|
      ensures AtLeaf(nodes[n].subs, n, 0, [])
    {
      assert LeavesLinked(n);
      assert Calls(tree, Flags(), [n][1..]) == [];
      assert Calls(tree, Flags(), [n]) == LeafCalls(tree, Flags(), n, 0);
    }

    lemma ProcessEnds(n: nat, i: nat, called: seq<Client>)
      requires Valid() && AtLeaf(null, n, i, called)
      ensures called == Called([n])
    {
      assert LeavesLinked(n);
    }

    /** A leaf of a list, the client behind it, and the next one. */
    lemma LeafFacts(n: nat, i: nat)
      requires Valid() && n < |tree| && i < |leaves[n]|
      ensures |leaves[n]| == |tree[n].leaves| && LeafAt(n, i) != null && LeafAt(n, i).next == LeafAt(n, i + 1)
      ensures tree[n].leaves[i].client < |clients| && LeafAt(n, i).context == clients[tree[n].leaves[i].client]
    {
      assert LeavesLinked(n) && LeafLinked(n, i);
    }

    /** Where the walk over a node's leaves stands. */
    ghost predicate AtLeaf(leaf: SubLeaf?, n: nat, i: nat, called: seq<Client>)
      reads this, clients
    {
      n < |tree| == |leaves| && i <= |leaves[n]| && leaf == LeafAt(n, i) && Processing(n, i, called)
    }

    /** One round of the loop over a node's leaves. Client ids are arrays, so the null tests never fail. */
    method ProcessOne(leaf: SubLeaf, ghost n: nat, ghost i: nat, called: seq<Client>)
      returns (called': seq<Client>, next: SubLeaf?, ghost i': nat)
      requires Valid() && AtLeaf(leaf, n, i, called)
      ensures Valid() && AtLeaf(next, n, i', called') && i' == i + 1 <= |leaves[n]|
    {
      LeafFacts(n, i);
      ProcessRound(n, i, called, Called([n]));
      called', next, i' := called, leaf.next, i + 1;
      if leaf.context.isSubscribe {
        called' := called + [leaf.context];
      }
    }

    /** _subs_process: the callbacks for one node's leaves. */
    method Process(hier: SubHier) returns (called: seq<Client>)
      requires Valid() && Node(hier)
      ensures called == Called([hier.num])
    {
      ghost var n, i := hier.num, 0;
      called := [];
      ProcessStarts(n);
      var leaf := hier.subs;
      while leaf != null
        invariant Valid() && AtLeaf(leaf, n, i, called)
        decreases |leaves[n]| - i
      {
        called, leaf, i := ProcessOne(leaf, n, i, called);
      }
      ProcessEnds(n, i, called);
    }

    /** The rest of a walk below node n, from its j-th child on, and the whole of it. */
    ghost predicate Searching(n: nat, j: nat, tokens: seq<string>, called: seq<Client>)
      requires n < |tree|
      reads this, clients
    {
      Splits(called, Called(VisitsFrom(tree, n, j, tokens)), Called(Visits(tree, n, tokens)))
    }

    /** The same for the walk over the root's children, which counts down. */
    ghost predicate RootSearching(j: nat, tokens: seq<string>, called: seq<Client>, all: seq<Client>)
      requires |tree| > 0 && j <= |tree[0].kids|
      reads this, clients
    {
      Splits(called, Called(RootVisits(tree, j, tokens)), all)
    }

    /** Where the walk below node n stands: at its j-th child, or at the end of the list. */
    ghost predicate Walking(branch: SubHier?, n: nat, j: nat, tokens: seq<string>, called: seq<Client>)
      reads this, clients
    {
      && n < |tree| && j <= |tree[n].kids| && branch == BranchFrom(n, j) && (branch == null <==> j == |tree[n].kids|)
      && Searching(n, j, tokens, called)
    }

    lemma WalkStarts(n: nat, tokens: seq<string>)
      requires Valid() && n < |tree| && n != 0
      ensures Walking(nodes[n].children, n, 0, tokens, [])
    {
      assert NodeLinked(n);
      BranchEnds(n, 0);
    }

    lemma WalkNext(branch: SubHier, n: nat, j: nat, tokens: seq<string>, called: seq<Client>)
      requires Valid() && n != 0 && Walking(branch, n, j, tokens, called)
      ensures j < |tree[n].kids| && n < tree[n].kids[j] < |tree|
      ensures Node(branch) && branch.num == tree[n].kids[j]
      ensures Walking(branch.next, n, j + 1, tokens, called + Called(VisitsBranch(tree, tree[n].kids[j], tokens)))
    {
      var b := tree[n].kids[j];
      assert NodeOk(tree, Ids(), n) && KidOk(tree, n, b) && NodeLinked(b);
      SearchRound(n, j, tokens, called);
      NextBranch(n, j);
      BranchEnds(n, j + 1);
    }

    /** _sub_search. */
    method Search(hier: SubHier, tokens: seq<string>) returns (called: seq<Client>)
      requires Valid() && Node(hier) && hier.num != 0
      ensures called == Called(Visits(tree, hier.num, tokens))
      decreases |tree| - hier.num, 1
    {
      ghost var n, j := hier.num, 0;
      called := [];
      WalkStarts(n, tokens);
      var branch := hier.children;
      while branch != null
        invariant Valid() && Walking(branch, n, j, tokens, called)
        decreases |tree[n].kids| - j
      {
        called, branch, j := SearchBranch(branch, n, j, tokens, called);
      }
    }

    /** One round of its loop (broker/substree.c:291-299). */
    method SearchBranch(branch: SubHier, ghost n: nat, ghost j: nat, tokens: seq<string>, called: seq<Client>)
      returns (called': seq<Client>, next: SubHier?, ghost j': nat)
      requires Valid() && n != 0 && Walking(branch, n, j, tokens, called)
      ensures Valid() && Walking(next, n, j', tokens, called') && j' == j + 1
      decreases |tree| - n, 0
    {
      WalkNext(branch, n, j, tokens, called);
      next, j' := branch.next, j + 1;
      var more := SearchAt(branch, tokens);
      called' := called + more;
    }

    /** What the comparison of a child reads. */
    lemma BranchFacts(b: nat)
      requires Valid() && 0 < b < |tree|
      ensures nodes[b].topic == tree[b].topic && (nodes[b].children == null <==> tree[b].kids == [])
    {
      assert NodeLinked(b) && NodeOk(tree, Ids(), b);
      assert tree[b].kids != [] ==> KidOk(tree, b, tree[b].kids[0]);
    }

    lemma BranchCalled(b: nat, tokens: seq<string>)
      requires b < |tree| && TakesToken(tree[b].topic, tokens)
      ensures Called(VisitsBranch(tree, b, tokens)) ==
        Called(Visits(tree, b, tokens[1..])) + if tokens[1..] == [] then Called([b]) else []
    {
      if tokens[1..] == [] {
        CalledConcat(Visits(tree, b, tokens[1..]), [b]);
      } else {
        assert Visits(tree, b, tokens[1..]) + [] == Visits(tree, b, tokens[1..]);
      }
    }

    method SearchAt(branch: SubHier, tokens: seq<string>) returns (called: seq<Client>)
      requires Valid() && Node(branch) && branch.num != 0
      ensures called == Called(VisitsBranch(tree, branch.num, tokens))
      decreases |tree| - branch.num, 2
    {
      BranchFacts(branch.num);
      called := [];
      if tokens != [] && (branch.topic == tokens[0] || branch.topic == "+") {
        BranchCalled(branch.num, tokens);
        called := Search(branch, tokens[1..]);
        if tokens[1..] == [] {
          var more := Process(branch);
          called := called + more;
        }
      } else if branch.topic == "#" && branch.children == null {
        called := Process(branch);
      }
    }

    /** Where the walk over the root's children stands: at this child, with j of them to come. */
    ghost predicate RootWalking(subhier: SubHier?, j: nat, tokens: seq<string>, called: seq<Client>, all: seq<Client>)
      reads this, clients
    {
      && |tree| > 0 && j <= |tree[0].kids| && subhier == RootFrom(j) && (subhier == null <==> j == 0)
      && RootSearching(j, tokens, called, all)
    }

    lemma RootWalkStarts(tokens: seq<string>) returns (all: seq<Client>)
      requires Valid()
      ensures RootWalking(subs.children, |tree[0].kids|, tokens, [], all)
      ensures all == Called(RootVisits(tree, |tree[0].kids|, tokens))
    {
      all := Called(RootVisits(tree, |tree[0].kids|, tokens));
      RootSearchStarts(tokens);
      RootEnds(|tree[0].kids|);
    }

    lemma RootWalkNext(subhier: SubHier, j: nat, tokens: seq<string>, called: seq<Client>, all: seq<Client>)
      requires Valid() && tokens != [] && RootWalking(subhier, j, tokens, called, all)
      ensures j > 0 && tree[0].kids[j - 1] < |tree| && subhier == At(tree[0].kids[j - 1]) && Node(subhier) && subhier.num == tree[0].kids[j - 1] != 0
      ensures subhier.topic == tree[subhier.num].topic
      ensures RootWalking(subhier.next, j - 1, tokens, called + Called(RootBranch(tree, tree[0].kids[j - 1], tokens)), all)
    {
      var b := tree[0].kids[j - 1];
      assert NodeOk(tree, Ids(), 0) && KidOk(tree, 0, b) && NodeLinked(b);
      RootRound(j, tokens, called, all);
      NextRootChild(j);
      RootEnds(j - 1);
    }

    /** One round of the walk over the root's children (broker/substree.c:313-316). */
    method RootSearch(subhier: SubHier, ghost j: nat, tokens: seq<string>, called: seq<Client>, ghost all: seq<Client>)
      returns (called': seq<Client>, next: SubHier?, ghost j': nat)
      requires Valid() && tokens != [] && RootWalking(subhier, j, tokens, called, all)
      ensures Valid() && RootWalking(next, j', tokens, called', all) && j' < j
    {
      RootWalkNext(subhier, j, tokens, called, all);
      called', next, j' := called, subhier.next, j - 1;
      if subhier.topic == tokens[0] {
        var more := Search(subhier, tokens);
        called' := called + more;
      } else {
        CalledNone(called);
      }
    }

    /** The loop over the root's children (broker/substree.c:312-317). */
    method RootWalk(tokens: seq<string>) returns (called: seq<Client>)
      requires Valid() && tokens != []
      ensures called == old(Called(RootVisits(tree, |tree[0].kids|, tokens)))
    {
      ghost var j: nat := |tree[0].kids|;
      ghost var all := RootWalkStarts(tokens);
      called := [];
      var subhier := subs.children;
      while subhier != null
        invariant Valid() && RootWalking(subhier, j, tokens, called, all)
        decreases j
      {
        called, subhier, j := RootSearch(subhier, j, tokens, called, all);
      }
      RootSearchEnds(tokens, called, all);
    }

    /** mqtt3_sub_tree_process: the callbacks of a publish, in order. */
    method TreeProcess(topic: string) returns (called: seq<Client>)
      requires Valid()
      ensures called == Contexts(Publish(tree, Flags(), topic))
    {
      var tokens := Tokenise(topic);
      called := RootWalk(tokens);
    }
  }

  /** A node stands in one list of children, at one place. */
  lemma SameKid(t: Tree, ids: seq<string>, m: nat, j: nat, n: nat, i: nat)
    requires Wf(t, ids) && m < |t| && n < |t| && j < |t[m].kids| && i < |t[n].kids|
    requires t[m].kids[j] == t[n].kids[i]
    ensures m == n && j == i
  {
    assert NodeOk(t, ids, m) && NodeOk(t, ids, n);
    assert KidOk(t, m, t[m].kids[j]) && KidOk(t, n, t[n].kids[i]);
  }
}
