/** A search of the subscription tree that runs while other threads subscribe. The publisher reads one link at
    a time and takes no lock that an adder holds; adders, one at a time under root_lock, link finished nodes and
    leaves. Memory is sequentially consistent here. */
module Interleave {
  import opened Seqs
  import opened Topics
  import opened Trie
  import opened Matching

  // ---------- the publisher ----------

  /** What the publisher still has to do. A list is named by its node, a place in it by the position. */
  datatype Item =
    | Root(count: nat, tokens: seq<string>)             // the first `count` children of the root, newest first
    | Enter(node: nat, tokens: seq<string>)             // read the children link of a node
    | Branch(node: nat, at: nat, tokens: seq<string>)   // compare a child
    | NextBranch(node: nat, at: nat, tokens: seq<string>) // read a child's next link
    | Leaves(node: nat)                                 // read the leaf link of a node
    | AtLeaf(node: nat, at: nat)                        // test a leaf's client, call back
    | NextLeaf(node: nat, at: nat)                      // read a leaf's next link

  /** flags says whose is_subscribe is set; calls are the callbacks made. */
  datatype State = State(t: Tree, flags: seq<bool>, stack: seq<Item>, calls: seq<(nat, nat)>)

  predicate ItemOk(t: Tree, item: Item)
  {
    |t| > 0 &&
    match item
    case Root(count, tokens) => count <= |t[0].kids| && tokens != []
    case Enter(n, _) => n < |t|
    case Branch(n, j, _) => n < |t| && j < |t[n].kids|
    case NextBranch(n, j, _) => n < |t| && j < |t[n].kids|
    case Leaves(n) => n < |t|
    case AtLeaf(n, i) => n < |t| && i < |t[n].leaves|
    case NextLeaf(n, i) => n < |t| && i < |t[n].leaves|
  }

  /** What the next read turns the top item into. */
  function Expand(t: Tree, item: Item): seq<Item>
    requires ItemOk(t, item)
  {
    match item
    case Root(count, tokens) =>
      if count == 0 then []
      else
        var b := t[0].kids[count - 1];
        (if b < |t| && t[b].topic == tokens[0] then [Enter(b, tokens)] else []) + [Root(count - 1, tokens)]
    case Enter(n, tokens) => if t[n].kids == [] then [] else [Branch(n, 0, tokens)]
    case Branch(n, j, tokens) => Compare(t, t[n].kids[j], tokens) + [NextBranch(n, j, tokens)]
    case NextBranch(n, j, tokens) => if j + 1 < |t[n].kids| then [Branch(n, j + 1, tokens)] else []
    case Leaves(n) => if t[n].leaves == [] then [] else [AtLeaf(n, 0)]
    case AtLeaf(n, i) => [NextLeaf(n, i)]
    case NextLeaf(n, i) => if i + 1 < |t[n].leaves| then [AtLeaf(n, i + 1)] else []
  }

  function Compare(t: Tree, b: nat, tokens: seq<string>): seq<Item>
  {
    if b >= |t| then []
    else if TakesToken(t[b].topic, tokens) then
      [Enter(b, tokens[1..])] + (if |tokens| == 1 then [Leaves(b)] else [])
    else if t[b].topic == "#" && t[b].kids == [] then [Leaves(b)]
    else []
  }

  function Callback(s: State, item: Item): seq<(nat, nat)>
    requires ItemOk(s.t, item)
  {
    if item.AtLeaf? && Subscribed(s.flags, s.t[item.node].leaves[item.at].client) then [(item.node, item.at)] else []
  }

  predicate SearchStep(s: State, s': State)
  {
    && s.stack != [] && ItemOk(s.t, s.stack[0])
    && s' == s.(stack := Expand(s.t, s.stack[0]) + s.stack[1..], calls := s.calls + Callback(s, s.stack[0]))
  }

  // ---------- the adders ----------

  /** One write of an adder that others can see. */
  datatype Write =
    | Child(node: nat, topic: string)
    | NewLeaf(node: nat, leaf: Leaf)
    | Qos(node: nat, at: nat, qos: int)

  predicate CanWrite(t: Tree, ids: seq<string>, w: Write)
  {
    match w
    case Child(n, topic) => CanLinkChild(t, n, topic) && t[n].topic != "#" && LevelOk(topic)
    case NewLeaf(n, leaf) => CanLinkLeaf(t, ids, n, leaf)
    case Qos(n, i, _) => n < |t| && i < |t[n].leaves|
  }

  function Apply(t: Tree, ids: seq<string>, w: Write): Tree
    requires CanWrite(t, ids, w)
  {
    match w
    case Child(n, topic) => LinkChild(t, n, topic)
    case NewLeaf(n, leaf) => LinkLeaf(t, n, leaf)
    case Qos(n, i, qos) => SetQos(t, n, i, qos)
  }

  predicate TreeStep(ids: seq<string>, t: Tree, t': Tree, w: Write)
  {
    CanWrite(t, ids, w) && t' == Apply(t, ids, w)
  }

  ghost predicate Written(ids: seq<string>, t: Tree, t': Tree)
  {
    exists w :: TreeStep(ids, t, t', w)
  }

  ghost predicate AdderStep(ids: seq<string>, s: State, s': State)
  {
    Written(ids, s.t, s'.t) && s' == s.(t := s'.t)
  }

  /** is_subscribe is set when a client's add has returned (broker/hand_mqtt.c:167), and cleared when its connection is
      cleaned up, by whichever thread serves it (broker/broker.c:36). */
  predicate FlagStep(s: State, s': State)
  {
    |s'.flags| == |s.flags| && s' == s.(flags := s'.flags)
  }

  ghost predicate Step(ids: seq<string>, s: State, s': State)
  {
    SearchStep(s, s') || AdderStep(ids, s, s') || FlagStep(s, s')
  }

  ghost predicate Run(ids: seq<string>, run: seq<State>)
  {
    |run| > 0 && forall k | 0 <= k < |run| - 1 :: Step(ids, run[k], run[k + 1])
  }

  /** The publisher has read the root's children link and done nothing else yet. */
  predicate Starts(s: State, topic: string)
  {
    |s.t| > 0 && s.calls == [] && s.stack == [Root(|s.t[0].kids|, Tokens(topic))]
  }

  // ---------- what a stack still covers ----------

  /** path goes on below node n, and its levels from there match. */
  ghost predicate CoversBelow(t: Tree, n: nat, tokens: seq<string>, path: seq<string>)
    requires Rooted(t) && n < |t|
  {
    && |path| > |Path(t, n)| && Path(t, n) == path[..|Path(t, n)|]
    && WalkMatch(path[|Path(t, n)|..], tokens)
  }

  /** The next level of path below n is none of the first j children's. */
  ghost predicate NotAmong(t: Tree, n: nat, j: nat, path: seq<string>)
    requires Rooted(t) && n < |t| && |path| > |Path(t, n)|
  {
    forall i | 0 <= i < j && i < |t[n].kids| && t[n].kids[i] < |t| :: t[t[n].kids[i]].topic != path[|Path(t, n)|]
  }

  ghost predicate AmongRoot(t: Tree, count: nat, topic: string)
    requires |t| > 0
  {
    exists i :: 0 <= i < count && i < |t[0].kids| && t[0].kids[i] < |t| && t[t[0].kids[i]].topic == topic
  }

  /** The item will come to position i in the leaf list at this path, if such a leaf is or gets linked in time. */
  ghost predicate Covers(t: Tree, item: Item, path: seq<string>, i: nat)
    requires Rooted(t) && ItemOk(t, item)
  {
    match item
    case Root(count, tokens) =>
      |path| >= 2 && path[0] == tokens[0] && AmongRoot(t, count, path[0]) && WalkMatch(path[1..], tokens)
    case Enter(n, tokens) => CoversBelow(t, n, tokens, path)
    case Branch(n, j, tokens) => CoversBelow(t, n, tokens, path) && NotAmong(t, n, j, path)
    case NextBranch(n, j, tokens) => CoversBelow(t, n, tokens, path) && NotAmong(t, n, j + 1, path)
    case Leaves(n) => path == Path(t, n)
    case AtLeaf(n, at) => path == Path(t, n) && i >= at
    case NextLeaf(n, at) => path == Path(t, n) && i > at
  }

  predicate StackOk(t: Tree, stack: seq<Item>)
  {
    forall k | 0 <= k < |stack| :: ItemOk(t, stack[k])
  }

  ghost function Cover(t: Tree, stack: seq<Item>, path: seq<string>, i: nat): nat
    requires Rooted(t) && StackOk(t, stack)
  {
    if stack == [] then 0
    else (if Covers(t, stack[0], path, i) then 1 else 0) + Cover(t, stack[1..], path, i)
  }

  lemma {:induction false} CoverConcat(t: Tree, a: seq<Item>, b: seq<Item>, path: seq<string>, i: nat)
    requires Rooted(t) && StackOk(t, a) && StackOk(t, b)
    ensures StackOk(t, a + b) && Cover(t, a + b, path, i) == Cover(t, a, path, i) + Cover(t, b, path, i)
  {
    if a == [] {
      assert a + b == b;
    } else {
      assert (a + b)[1..] == a[1..] + b;
      CoverConcat(t, a[1..], b, path, i);
    }
  }

  // ---------- a search step ----------

  ghost predicate TreeOk(t: Tree, ids: seq<string>)
  {
    Wf(t, ids) && Rooted(t) && WildOk(t)
  }

  lemma ExpandOk(t: Tree, ids: seq<string>, item: Item)
    requires TreeOk(t, ids) && ItemOk(t, item)
    ensures StackOk(t, Expand(t, item))
  {
  }

  /** A leaf stands at position i of the node with this path. */
  predicate LeafIs(t: Tree, path: seq<string>, v: nat, i: nat)
    requires Rooted(t)
  {
    v < |t| && Path(t, v) == path && i < |t[v].leaves|
  }

  /** The path below a node leads through one of its children. */
  lemma {:induction false} PathThroughKid(t: Tree, ids: seq<string>, n: nat, v: nat) returns (j: nat)
    requires Wf(t, ids) && Rooted(t) && n < |t| && v < |t|
    requires |Path(t, v)| > |Path(t, n)| && Path(t, n) == Path(t, v)[..|Path(t, n)|]
    ensures j < |t[n].kids| && t[n].kids[j] < |t| && t[t[n].kids[j]].topic == Path(t, v)[|Path(t, n)|]
    decreases v
  {
    assert NodeOk(t, ids, v) && NodeOk(t, ids, n);
    var p := t[v].parent;
    if |Path(t, p)| == |Path(t, n)| {
      assert Path(t, p) == Path(t, n);
      PathInjective(t, ids, p, n);
      j :| 0 <= j < |t[n].kids| && t[n].kids[j] == v;
    } else {
      assert Path(t, p)[..|Path(t, n)|] == Path(t, n);
      j := PathThroughKid(t, ids, n, p);
    }
  }

  /** A path that goes on with the level of the j-th child: what was due there is due in the child. */
  lemma ExpandBranchHit(t: Tree, ids: seq<string>, n: nat, j: nat, tokens: seq<string>, path: seq<string>, i: nat)
    requires TreeOk(t, ids) && ItemOk(t, Branch(n, j, tokens)) && StackOk(t, Compare(t, t[n].kids[j], tokens))
    requires KidOk(t, n, t[n].kids[j]) && Path(t, t[n].kids[j]) == Path(t, n) + [t[t[n].kids[j]].topic]
    requires var k := |Path(t, n)|; |path| > k && path[..k] == Path(t, n) && path[k] == t[t[n].kids[j]].topic
    ensures Cover(t, Compare(t, t[n].kids[j], tokens), path, i)
            + (if Covers(t, NextBranch(n, j, tokens), path, i) then 1 else 0)
            == if Covers(t, Branch(n, j, tokens), path, i) then 1 else 0
  {
    var b, k := t[n].kids[j], |Path(t, n)|;
    assert !NotAmong(t, n, j + 1, path) && NotAmong(t, n, j, path) by {
      assert NodeOk(t, ids, n);
      forall m | 0 <= m < j ensures t[n].kids[m] < |t| && t[t[n].kids[m]].topic != path[k] {
        assert KidOk(t, n, t[n].kids[m]);
      }
    }
    assert path[..k + 1] == Path(t, b);
    var rest := path[k..];
    assert rest[1..] == path[k + 1..];
    assert |rest| == 1 <==> path == Path(t, b);
    CompareCover(t, b, tokens, path, i);
  }

  /** Comparing the j-th child divides its part of the cover among the items it is replaced by. */
  lemma ExpandBranch(t: Tree, ids: seq<string>, n: nat, j: nat, tokens: seq<string>, path: seq<string>, i: nat)
    requires TreeOk(t, ids) && ItemOk(t, Branch(n, j, tokens)) && StackOk(t, Compare(t, t[n].kids[j], tokens))
    ensures Cover(t, Compare(t, t[n].kids[j], tokens), path, i)
            + (if Covers(t, NextBranch(n, j, tokens), path, i) then 1 else 0)
            == if Covers(t, Branch(n, j, tokens), path, i) then 1 else 0
  {
    assert NodeOk(t, ids, n) && KidOk(t, n, t[n].kids[j]);
    var b, k := t[n].kids[j], |Path(t, n)|;
    assert Path(t, b) == Path(t, n) + [t[b].topic];
    if |path| > k && path[..k] == Path(t, n) && path[k] == t[b].topic {
      ExpandBranchHit(t, ids, n, j, tokens, path, i);
    } else {
      NotBelow(Path(t, n), t[b].topic, path);
      CompareCover(t, b, tokens, path, i);
      if |path| > k && path[..k] == Path(t, n) {
        assert NotAmong(t, n, j, path) <==> NotAmong(t, n, j + 1, path);
      }
    }
  }

  /** A path that does not go on with this level does not go through it. */
  lemma NotBelow(start: seq<string>, level: string, path: seq<string>)
    requires !(|path| > |start| && path[..|start|] == start && path[|start|] == level)
    ensures |path| > |start| ==> path[..|start| + 1] != start + [level]
    ensures path != start + [level]
  {
    if |path| > |start| {
      var first := path[..|start| + 1];
      assert first[..|start|] == path[..|start|] && first[|start|] == path[|start|];
      assert (start + [level])[..|start|] == start;
    }
  }

  lemma CompareCover(t: Tree, b: nat, tokens: seq<string>, path: seq<string>, i: nat)
    requires Rooted(t) && b < |t| && StackOk(t, Compare(t, b, tokens))
    ensures Cover(t, Compare(t, b, tokens), path, i) ==
            if TakesToken(t[b].topic, tokens) then
              (if CoversBelow(t, b, tokens[1..], path) then 1 else 0)
              + (if |tokens| == 1 && path == Path(t, b) then 1 else 0)
            else if t[b].topic == "#" && t[b].kids == [] && path == Path(t, b) then 1 else 0
  {
    if TakesToken(t[b].topic, tokens) {
      CoverOne(t, Enter(b, tokens[1..]), path, i);
      if |tokens| == 1 {
        CoverOne(t, Leaves(b), path, i);
        CoverConcat(t, [Enter(b, tokens[1..])], [Leaves(b)], path, i);
      } else {
        assert Compare(t, b, tokens) == [Enter(b, tokens[1..])];
      }
    } else if t[b].topic == "#" && t[b].kids == [] {
      CoverOne(t, Leaves(b), path, i);
    }
  }

  lemma CoverOne(t: Tree, item: Item, path: seq<string>, i: nat)
    requires Rooted(t) && ItemOk(t, item)
    ensures StackOk(t, [item]) && Cover(t, [item], path, i) == if Covers(t, item, path, i) then 1 else 0
  {
    assert [item][1..] == [];
  }

  lemma ExpandRoot(t: Tree, ids: seq<string>, count: nat, tokens: seq<string>, path: seq<string>, i: nat)
    requires TreeOk(t, ids) && ItemOk(t, Root(count, tokens)) && StackOk(t, Expand(t, Root(count, tokens)))
    ensures Cover(t, Expand(t, Root(count, tokens)), path, i) ==
            if Covers(t, Root(count, tokens), path, i) then 1 else 0
  {
    if count > 0 {
      assert NodeOk(t, ids, 0) && KidOk(t, 0, t[0].kids[count - 1]);
      var b := t[0].kids[count - 1];
      var rest := Root(count - 1, tokens);
      CoverOne(t, rest, path, i);
      assert Path(t, b) == [t[b].topic];
      if |path| > 0 && path[0] == t[b].topic {
        forall m | 0 <= m < count - 1 && t[0].kids[m] < |t| ensures t[t[0].kids[m]].topic != path[0] {
          assert t[0].kids[m] < t[0].kids[count - 1];
        }
        assert !AmongRoot(t, count - 1, path[0]);
        assert AmongRoot(t, count, path[0]);
        assert path[..1] == Path(t, b);
      } else if |path| > 0 {
        assert AmongRoot(t, count, path[0]) <==> AmongRoot(t, count - 1, path[0]);
        assert path[..1] != Path(t, b);
      }
      if t[b].topic == tokens[0] {
        CoverOne(t, Enter(b, tokens), path, i);
        CoverConcat(t, [Enter(b, tokens)], [rest], path, i);
      } else {
        assert Expand(t, Root(count, tokens)) == [rest];
      }
    }
  }

  /** A step drops cover only at the place it calls back, and where no leaf stands. */
  lemma ExpandCover(t: Tree, ids: seq<string>, item: Item, path: seq<string>, i: nat)
    requires TreeOk(t, ids) && ItemOk(t, item) && StackOk(t, Expand(t, item))
    ensures var before := if Covers(t, item, path, i) then 1 else 0;
            var after := Cover(t, Expand(t, item), path, i);
            var here := if item.AtLeaf? && path == Path(t, item.node) && i == item.at then 1 else 0;
            && after + here <= before
            && forall v: nat | LeafIs(t, path, v, i) :: after + here == before
  {
    match item
    case Root(count, tokens) => ExpandRoot(t, ids, count, tokens, path, i);
    case Branch(n, j, tokens) =>
      var head := Compare(t, t[n].kids[j], tokens);
      assert Expand(t, item) == head + [NextBranch(n, j, tokens)];
      assert StackOk(t, head) by {
        assert forall k | 0 <= k < |head| :: head[k] == Expand(t, item)[k];
      }
      ExpandBranch(t, ids, n, j, tokens, path, i);
      CoverOne(t, NextBranch(n, j, tokens), path, i);
      CoverConcat(t, head, [NextBranch(n, j, tokens)], path, i);
    case Enter(n, tokens) =>
      if t[n].kids != [] {
        CoverOne(t, Branch(n, 0, tokens), path, i);
      } else if Covers(t, item, path, i) {
        ExpandLink(t, ids, n, 0, tokens, path, i);
      }
    case NextBranch(n, j, tokens) =>
      if j + 1 < |t[n].kids| {
        CoverOne(t, Branch(n, j + 1, tokens), path, i);
      } else if Covers(t, item, path, i) {
        ExpandLink(t, ids, n, j + 1, tokens, path, i);
      }
    case _ => ExpandLeaf(t, ids, item, path, i);
  }

  /** At the end of a list of children nothing is dropped that is in the tree. */
  lemma ExpandLink(t: Tree, ids: seq<string>, n: nat, j: nat, tokens: seq<string>, path: seq<string>, i: nat)
    requires TreeOk(t, ids) && n < |t| && j >= |t[n].kids|
    requires CoversBelow(t, n, tokens, path) && NotAmong(t, n, j, path)
    ensures forall v: nat :: !LeafIs(t, path, v, i)
  {
    forall v: nat ensures !LeafIs(t, path, v, i) {
      if LeafIs(t, path, v, i) {
        var k := PathThroughKid(t, ids, n, v);
      }
    }
  }

  lemma ExpandLeaf(t: Tree, ids: seq<string>, item: Item, path: seq<string>, i: nat)
    requires TreeOk(t, ids) && ItemOk(t, item) && StackOk(t, Expand(t, item))
    requires item.Leaves? || item.AtLeaf? || item.NextLeaf?
    ensures var before := if Covers(t, item, path, i) then 1 else 0;
            var after := Cover(t, Expand(t, item), path, i);
            var here := if item.AtLeaf? && path == Path(t, item.node) && i == item.at then 1 else 0;
            && after + here <= before
            && forall v: nat | LeafIs(t, path, v, i) :: after + here == before
  {
    if Expand(t, item) != [] {
      CoverOne(t, Expand(t, item)[0], path, i);
      assert Expand(t, item) == [Expand(t, item)[0]];
    }
    forall v: nat | LeafIs(t, path, v, i) && path == Path(t, item.node) ensures v == item.node {
      PathInjective(t, ids, v, item.node);
    }
  }

  // ---------- a write of an adder ----------

  lemma WriteOk(t: Tree, ids: seq<string>, w: Write)
    requires TreeOk(t, ids) && CanWrite(t, ids, w)
    ensures TreeOk(Apply(t, ids, w), ids)
  {
    match w {
      case Child(n, topic) => LinkChildWf(t, ids, n, topic);
      case NewLeaf(n, leaf) => LinkLeafWf(t, ids, n, leaf);
      case Qos(n, i, qos) =>
        assert NodeOk(t, ids, n);
        LeavesWf(t, Apply(t, ids, w), ids, n);
    }
    WfRooted(Apply(t, ids, w), ids);
  }

  /** What no write takes away: nodes keep their place and name, lists keep their beginning. */
  ghost predicate Grows(t: Tree, t': Tree)
  {
    && |t| <= |t'|
    && (forall n: nat | n < |t| :: t'[n].topic == t[n].topic && t'[n].parent == t[n].parent)
    && (forall n: nat | n < |t| :: t[n].kids <= t'[n].kids && |t[n].leaves| <= |t'[n].leaves|)
    && (forall n: nat, i: nat | n < |t| && i < |t[n].leaves| :: t'[n].leaves[i].client == t[n].leaves[i].client)
  }

  lemma WriteGrows(t: Tree, ids: seq<string>, w: Write)
    requires CanWrite(t, ids, w)
    ensures Grows(t, Apply(t, ids, w))
  {
  }

  lemma KidKept(t: Tree, t': Tree, ids: seq<string>, n: nat, i: nat)
    requires Wf(t, ids) && Grows(t, t') && n < |t| && i < |t[n].kids|
    ensures t'[n].kids[i] == t[n].kids[i] < |t| && t'[t'[n].kids[i]].topic == t[t[n].kids[i]].topic
  {
    assert NodeOk(t, ids, n) && KidOk(t, n, t[n].kids[i]);
  }

  lemma CoversKept(t: Tree, t': Tree, ids: seq<string>, item: Item, path: seq<string>, i: nat)
    requires TreeOk(t, ids) && Rooted(t') && Grows(t, t') && ItemOk(t, item)
    ensures ItemOk(t', item) && (Covers(t', item, path, i) <==> Covers(t, item, path, i))
  {
    var n := if item.Root? then 0 else item.node;
    PathKept(t, t', n);
    forall k: nat | k < |t[n].kids|
      ensures t'[n].kids[k] == t[n].kids[k] < |t| && t'[t'[n].kids[k]].topic == t[t[n].kids[k]].topic
    {
      KidKept(t, t', ids, n, k);
    }
    match item
    case Root(count, _) =>
      assert |path| > 0 ==> (AmongRoot(t', count, path[0]) <==> AmongRoot(t, count, path[0]));
    case Branch(_, j, _) =>
      assert |path| > |Path(t, n)| ==> (NotAmong(t', n, j, path) <==> NotAmong(t, n, j, path));
    case NextBranch(_, j, _) =>
      assert |path| > |Path(t, n)| ==> (NotAmong(t', n, j + 1, path) <==> NotAmong(t, n, j + 1, path));
    case _ =>
  }

  lemma {:induction false} CoverKept(t: Tree, t': Tree, ids: seq<string>, stack: seq<Item>, path: seq<string>, i: nat)
    requires TreeOk(t, ids) && Rooted(t') && Grows(t, t') && StackOk(t, stack)
    ensures StackOk(t', stack) && Cover(t', stack, path, i) == Cover(t, stack, path, i)
  {
    if stack != [] {
      CoversKept(t, t', ids, stack[0], path, i);
      CoverKept(t, t', ids, stack[1..], path, i);
      assert stack == [stack[0]] + stack[1..];
    }
  }

  // ---------- callbacks made ----------

  predicate CallOk(t: Tree, call: (nat, nat))
  {
    call.0 < |t| && call.1 < |t[call.0].leaves|
  }

  predicate CallsOk(t: Tree, calls: seq<(nat, nat)>)
  {
    forall k | 0 <= k < |calls| :: CallOk(t, calls[k])
  }

  /** Callbacks made so far for position i at a path. */
  ghost function CallsAt(t: Tree, calls: seq<(nat, nat)>, path: seq<string>, i: nat): nat
    requires Rooted(t) && forall k | 0 <= k < |calls| :: calls[k].0 < |t|
  {
    if calls == [] then 0
    else
      var last := |calls| - 1;
      CallsAt(t, calls[..last], path, i) + if Path(t, calls[last].0) == path && calls[last].1 == i then 1 else 0
  }

  lemma {:induction false} CallsAtKept(t: Tree, t': Tree, calls: seq<(nat, nat)>, path: seq<string>, i: nat)
    requires Rooted(t) && Rooted(t') && Grows(t, t') && forall k | 0 <= k < |calls| :: calls[k].0 < |t|
    ensures CallsAt(t', calls, path, i) == CallsAt(t, calls, path, i)
  {
    if calls != [] {
      PathKept(t, t', calls[|calls| - 1].0);
      CallsAtKept(t, t', calls[..|calls| - 1], path, i);
    }
  }

  lemma {:induction false} CallsAtIsCount(t: Tree, ids: seq<string>, calls: seq<(nat, nat)>, v: nat, i: nat)
    requires Wf(t, ids) && Rooted(t) && v < |t| && forall k | 0 <= k < |calls| :: calls[k].0 < |t|
    ensures CallsAt(t, calls, Path(t, v), i) == multiset(calls)[(v, i)]
  {
    if calls != [] {
      var last := |calls| - 1;
      CallsAtIsCount(t, ids, calls[..last], v, i);
      assert calls == calls[..last] + [calls[last]];
      if Path(t, calls[last].0) == Path(t, v) {
        PathInjective(t, ids, calls[last].0, v);
      }
    }
  }

  // ---------- the invariant ----------

  ghost predicate Inv(ids: seq<string>, s: State)
  {
    TreeOk(s.t, ids) && StackOk(s.t, s.stack) && CallsOk(s.t, s.calls)
  }

  /** Callbacks made and still to come for position i at a path. */
  ghost function Total(ids: seq<string>, s: State, path: seq<string>, i: nat): nat
    requires Inv(ids, s)
  {
    CallsAt(s.t, s.calls, path, i) + Cover(s.t, s.stack, path, i)
  }

  /** A leaf of a subscribed client stands there. */
  predicate Ready(s: State, v: nat, i: nat)
  {
    CallOk(s.t, (v, i)) && Subscribed(s.flags, s.t[v].leaves[i].client)
  }

  lemma CallbackTotal(ids: seq<string>, s: State, item: Item, path: seq<string>, i: nat)
    requires Inv(ids, s) && ItemOk(s.t, item)
    ensures CallsOk(s.t, s.calls + Callback(s, item))
    ensures var here := if item.AtLeaf? && path == Path(s.t, item.node) && i == item.at then 1 else 0;
            var before, after := CallsAt(s.t, s.calls, path, i), CallsAt(s.t, s.calls + Callback(s, item), path, i);
            && after <= before + here
            && forall v: nat | Ready(s, v, i) && Path(s.t, v) == path :: after == before + here
  {
    var all := s.calls + Callback(s, item);
    if Callback(s, item) == [] {
      assert all == s.calls;
      if item.AtLeaf? && path == Path(s.t, item.node) && i == item.at {
        forall v: nat ensures !(Ready(s, v, i) && Path(s.t, v) == path) {
          if Ready(s, v, i) && Path(s.t, v) == path {
            PathInjective(s.t, ids, v, item.node);
          }
        }
      }
    } else {
      assert all[..|all| - 1] == s.calls;
    }
  }

  lemma StackTotal(ids: seq<string>, s: State, path: seq<string>, i: nat)
    requires Inv(ids, s) && s.stack != []
    ensures ItemOk(s.t, s.stack[0])
    ensures var t, item, rest := s.t, s.stack[0], s.stack[1..];
            && StackOk(t, rest) && StackOk(t, Expand(t, item)) && StackOk(t, Expand(t, item) + rest)
            && Cover(t, s.stack, path, i) == (if Covers(t, item, path, i) then 1 else 0) + Cover(t, rest, path, i)
            && Cover(t, Expand(t, item) + rest, path, i) == Cover(t, Expand(t, item), path, i) + Cover(t, rest, path, i)
  {
    ExpandOk(s.t, ids, s.stack[0]);
    CoverConcat(s.t, Expand(s.t, s.stack[0]), s.stack[1..], path, i);
  }

  lemma SearchStepTotal(ids: seq<string>, s: State, s': State, path: seq<string>, i: nat)
    requires Inv(ids, s) && SearchStep(s, s')
    ensures Inv(ids, s') && Total(ids, s', path, i) <= Total(ids, s, path, i)
    ensures forall v: nat | Ready(s, v, i) && Path(s.t, v) == path :: Total(ids, s', path, i) == Total(ids, s, path, i)
  {
    StackTotal(ids, s, path, i);
    ExpandCover(s.t, ids, s.stack[0], path, i);
    CallbackTotal(ids, s, s.stack[0], path, i);
    forall v: nat | Ready(s, v, i) && Path(s.t, v) == path ensures LeafIs(s.t, path, v, i) {
    }
  }

  lemma AdderStepTotal(ids: seq<string>, s: State, s': State, path: seq<string>, i: nat)
    requires Inv(ids, s) && AdderStep(ids, s, s')
    ensures Inv(ids, s') && Total(ids, s', path, i) == Total(ids, s, path, i)
    ensures Grows(s.t, s'.t)
  {
    var w :| TreeStep(ids, s.t, s'.t, w);
    WriteOk(s.t, ids, w);
    WriteGrows(s.t, ids, w);
    CoverKept(s.t, s'.t, ids, s.stack, path, i);
    CallsAtKept(s.t, s'.t, s.calls, path, i);
  }

  /** No step adds to what is called back or to come, and none takes a ready leaf's callback away. */
  lemma StepTotal(ids: seq<string>, s: State, s': State, path: seq<string>, i: nat)
    requires Inv(ids, s) && Step(ids, s, s')
    ensures Inv(ids, s') && Grows(s.t, s'.t)
    ensures Total(ids, s', path, i) <= Total(ids, s, path, i)
    ensures forall v: nat | Ready(s, v, i) && Path(s.t, v) == path ::
              Path(s'.t, v) == path && Total(ids, s', path, i) == Total(ids, s, path, i)
  {
    if SearchStep(s, s') {
      SearchStepTotal(ids, s, s', path, i);
    } else if AdderStep(ids, s, s') {
      AdderStepTotal(ids, s, s', path, i);
      forall v: nat | v < |s.t| ensures Path(s'.t, v) == Path(s.t, v) {
        PathKept(s.t, s'.t, v);
      }
    }
  }

  /** Whether a publish wants this path. */
  predicate Wanted(path: seq<string>, tokens: seq<string>)
    requires tokens != []
  {
    |path| >= 2 && path[0] == tokens[0] && WalkMatch(path[1..], tokens)
  }

  lemma StartTotal(ids: seq<string>, s: State, topic: string, path: seq<string>, i: nat)
    requires TreeOk(s.t, ids) && Starts(s, topic)
    ensures Inv(ids, s)
    ensures Total(ids, s, path, i) <= if Wanted(path, Tokens(topic)) then 1 else 0
    ensures forall v: nat | v < |s.t| && Path(s.t, v) == path ::
              Total(ids, s, path, i) == if Wanted(path, Tokens(topic)) then 1 else 0
  {
    CoverOne(s.t, s.stack[0], path, i);
    forall v: nat | v < |s.t| && Path(s.t, v) == path && |path| > 0
      ensures AmongRoot(s.t, |s.t[0].kids|, path[0])
    {
      var j := PathThroughKid(s.t, ids, 0, v);
    }
  }

  // ---------- whole runs ----------

  /** The leaf was linked when the search began, and its client has been subscribed at every moment since. */
  predicate StaysReady(run: seq<State>, k: nat, v: nat, i: nat)
    requires k < |run|
  {
    CallOk(run[0].t, (v, i)) && forall j | 0 <= j < k :: Subscribed(run[j].flags, run[0].t[v].leaves[i].client)
  }

  lemma {:induction false} RunTotal(ids: seq<string>, run: seq<State>, topic: string, path: seq<string>, i: nat, k: nat)
    requires Run(ids, run) && TreeOk(run[0].t, ids) && Starts(run[0], topic) && k < |run|
    ensures Inv(ids, run[k]) && Grows(run[0].t, run[k].t)
    ensures Total(ids, run[k], path, i) <= if Wanted(path, Tokens(topic)) then 1 else 0
    ensures forall v: nat | StaysReady(run, k, v, i) && Path(run[0].t, v) == path ::
              && v < |run[k].t| && Path(run[k].t, v) == path
              && Total(ids, run[k], path, i) == if Wanted(path, Tokens(topic)) then 1 else 0
    decreases k
  {
    if k == 0 {
      StartTotal(ids, run[0], topic, path, i);
    } else {
      RunTotal(ids, run, topic, path, i, k - 1);
      assert Step(ids, run[k - 1], run[k]);
      StepTotal(ids, run[k - 1], run[k], path, i);
      forall v: nat | StaysReady(run, k, v, i) ensures StaysReady(run, k - 1, v, i) && Ready(run[k - 1], v, i) {
      }
    }
  }

  lemma WantedIsPathMatches(t: Tree, ids: seq<string>, v: nat, topic: string)
    requires TreeOk(t, ids) && 0 < v < |t| && WildFree(topic)
    ensures Wanted(Path(t, v), Tokens(topic)) <==> PathMatches(Path(t, v), Tokens(topic))
  {
    var path := Path(t, v);
    PathValid(t, ids, v);
    assert path == [path[0]] + path[1..];
    ValidLevelsCons(path[0], path[1..]);
    TokensWildFree(topic);
    if |path| > 1 {
      WalkMatchIsLevelsMatch(path[1..], Tokens(topic));
    }
  }

  /** A finished search, whatever was subscribed and whoever was disconnected meanwhile: a leaf linked before the search
      began, for a client that stays subscribed while it lasts, is called back exactly once if its path matches and
      never if not. */
  lemma LinkedBeforeIsCalledOnce(ids: seq<string>, run: seq<State>, topic: string, v: nat, i: nat)
    requires Run(ids, run) && TreeOk(run[0].t, ids) && Starts(run[0], topic) && WildFree(topic)
    requires run[|run| - 1].stack == [] && StaysReady(run, |run| - 1, v, i)
    ensures multiset(run[|run| - 1].calls)[(v, i)] ==
            if v > 0 && PathMatches(Path(run[0].t, v), Tokens(topic)) then 1 else 0
  {
    var last, path := |run| - 1, Path(run[0].t, v);
    RunTotal(ids, run, topic, path, i, last);
    CallsAtIsCount(run[last].t, ids, run[last].calls, v, i);
    if v > 0 {
      WantedIsPathMatches(run[0].t, ids, v, topic);
    }
  }

  lemma StepGrows(ids: seq<string>, s: State, s': State)
    requires Step(ids, s, s')
    ensures Grows(s.t, s'.t)
  {
    if AdderStep(ids, s, s') {
      var w :| TreeStep(ids, s.t, s'.t, w);
      WriteGrows(s.t, ids, w);
    }
  }

  /** A callback that has been made, for a leaf that is then there, stays so. */
  lemma OldCall(ids: seq<string>, s: State, s': State, v: nat, i: nat)
    requires Step(ids, s, s') && CallOk(s.t, (v, i))
    ensures CallOk(s'.t, (v, i)) && s'.t[v].leaves[i].client == s.t[v].leaves[i].client
  {
    StepGrows(ids, s, s');
  }

  lemma NewCall(ids: seq<string>, s: State, s': State, v: nat, i: nat)
    requires Step(ids, s, s') && (v, i) in s'.calls && (v, i) !in s.calls
    ensures s'.t == s.t && CallOk(s.t, (v, i)) && Subscribed(s.flags, s.t[v].leaves[i].client)
  {
  }

  /** The search made a callback while the leaf's client was subscribed. */
  lemma {:induction false} CalledWhenSubscribed(ids: seq<string>, run: seq<State>, topic: string, k: nat, v: nat, i: nat)
      returns (j: nat)
    requires Run(ids, run) && Starts(run[0], topic) && k < |run| && (v, i) in run[k].calls
    ensures j < k && CallOk(run[k].t, (v, i)) && Subscribed(run[j].flags, run[k].t[v].leaves[i].client)
    decreases k
  {
    assert Step(ids, run[k - 1], run[k]);
    if (v, i) in run[k - 1].calls {
      j := CalledWhenSubscribed(ids, run, topic, k - 1, v, i);
      OldCall(ids, run[k - 1], run[k], v, i);
    } else {
      j := k - 1;
      NewCall(ids, run[k - 1], run[k], v, i);
    }
  }

  /** At any moment: whatever was called back is a linked leaf, whose client was subscribed then; it was called back
      once, and its path matches. */
  lemma CalledIsLinkedMatchingAndOnce(ids: seq<string>, run: seq<State>, topic: string, k: nat, v: nat, i: nat)
      returns (j: nat)
    requires Run(ids, run) && TreeOk(run[0].t, ids) && Starts(run[0], topic) && WildFree(topic)
    requires k < |run| && (v, i) in run[k].calls
    ensures Rooted(run[k].t) && CallOk(run[k].t, (v, i)) && v > 0 && multiset(run[k].calls)[(v, i)] == 1
    ensures j < k && Subscribed(run[j].flags, run[k].t[v].leaves[i].client)
    ensures PathMatches(Path(run[k].t, v), Tokens(topic))
  {
    RunTotal(ids, run, topic, [], 0, k);
    j := CalledWhenSubscribed(ids, run, topic, k, v, i);
    var path := Path(run[k].t, v);
    RunTotal(ids, run, topic, path, i, k);
    CallsAtIsCount(run[k].t, ids, run[k].calls, v, i);
    assert multiset(run[k].calls)[(v, i)] > 0;
    WantedIsPathMatches(run[k].t, ids, v, topic);
  }

  /** The two results in terms of filters, for a search that starts on the tree of a history of valid subscriptions. */
  lemma SearchDuringAdds(ids: seq<string>, history: seq<Sub>, run: seq<State>, topic: string, v: nat, i: nat)
      returns (filter: string)
    requires Known(ids, history) && ValidFilters(history) && WildFree(topic)
    requires Run(ids, run) && run[0].t == TreeOf(ids, history) && Starts(run[0], topic) && run[|run| - 1].stack == []
    requires StaysReady(run, |run| - 1, v, i)
    ensures var leaf := run[0].t[v].leaves[i];
            && leaf.client < |ids| && LastSub(ids, history, filter, ids[leaf.client], leaf.qos)
            && LeafHolds(run[0].t, ids, PathOf(filter), ids[leaf.client], leaf.qos, v, i)
            && multiset(run[|run| - 1].calls)[(v, i)] == if FilterMatches(filter, topic) then 1 else 0
  {
    TreeWildOk(ids, history);
    filter := LeafFilter(ids, history, v, i);
    FilterValid(history, filter);
    LinkedBeforeIsCalledOnce(ids, run, topic, v, i);
    TokenMatchIsFilterMatch(filter, topic);
  }

  /** The same for every leaf that is called, linked before the search or during it: when the adds so far are complete,
      it stands for a filter of the history that has come about, the filter matches, and it is called once. */
  lemma CalledDuringAdds(ids: seq<string>, history: seq<Sub>, run: seq<State>, topic: string, k: nat, v: nat, i: nat)
      returns (filter: string, j: nat)
    requires Known(ids, history) && ValidFilters(history) && WildFree(topic)
    requires Run(ids, run) && TreeOk(run[0].t, ids) && Starts(run[0], topic)
    requires k < |run| && run[k].t == TreeOf(ids, history) && (v, i) in run[k].calls
    ensures v < |run[k].t| && i < |run[k].t[v].leaves|
    ensures var leaf := run[k].t[v].leaves[i];
            && leaf.client < |ids| && j < k && Subscribed(run[j].flags, leaf.client)
            && LastSub(ids, history, filter, ids[leaf.client], leaf.qos)
            && LeafHolds(run[k].t, ids, PathOf(filter), ids[leaf.client], leaf.qos, v, i)
            && FilterMatches(filter, topic) && multiset(run[k].calls)[(v, i)] == 1
  {
    j := CalledIsLinkedMatchingAndOnce(ids, run, topic, k, v, i);
    filter := LeafFilter(ids, history, v, i);
    FilterValid(history, filter);
    TokenMatchIsFilterMatch(filter, topic);
  }

  // ---------- a search that nobody interferes with ----------

  /** The callbacks that an item still stands for if the tree stays as it is. */
  function Todo(t: Tree, flags: seq<bool>, item: Item): seq<(nat, nat)>
    requires ItemOk(t, item)
  {
    match item
    case Root(count, tokens) => Calls(t, flags, RootVisits(t, count, tokens))
    case Enter(n, tokens) => Calls(t, flags, Visits(t, n, tokens))
    case Branch(n, j, tokens) => Calls(t, flags, VisitsFrom(t, n, j, tokens))
    case NextBranch(n, j, tokens) => Calls(t, flags, VisitsFrom(t, n, j + 1, tokens))
    case Leaves(n) => LeafCalls(t, flags, n, 0)
    case AtLeaf(n, i) => LeafCalls(t, flags, n, i)
    case NextLeaf(n, i) => LeafCalls(t, flags, n, i + 1)
  }

  function AllTodo(t: Tree, flags: seq<bool>, stack: seq<Item>): seq<(nat, nat)>
    requires StackOk(t, stack)
  {
    if stack == [] then [] else Todo(t, flags, stack[0]) + AllTodo(t, flags, stack[1..])
  }

  lemma {:induction false} TodoConcat(t: Tree, flags: seq<bool>, a: seq<Item>, b: seq<Item>)
    requires StackOk(t, a) && StackOk(t, b)
    ensures StackOk(t, a + b) && AllTodo(t, flags, a + b) == AllTodo(t, flags, a) + AllTodo(t, flags, b)
  {
    if a == [] {
      assert a + b == b;
    } else {
      assert (a + b)[1..] == a[1..] + b;
      calc {
        AllTodo(t, flags, a + b);
        Todo(t, flags, a[0]) + AllTodo(t, flags, a[1..] + b);
        { TodoConcat(t, flags, a[1..], b); }
        Todo(t, flags, a[0]) + (AllTodo(t, flags, a[1..]) + AllTodo(t, flags, b));
        { Assoc(Todo(t, flags, a[0]), AllTodo(t, flags, a[1..]), AllTodo(t, flags, b)); }
        (Todo(t, flags, a[0]) + AllTodo(t, flags, a[1..])) + AllTodo(t, flags, b);
        AllTodo(t, flags, a) + AllTodo(t, flags, b);
      }
    }
  }

  lemma TodoOne(t: Tree, flags: seq<bool>, item: Item)
    requires ItemOk(t, item)
    ensures StackOk(t, [item]) && AllTodo(t, flags, [item]) == Todo(t, flags, item)
  {
    assert [item][1..] == [];
  }

  lemma CallsOne(t: Tree, flags: seq<bool>, v: nat)
    requires v < |t|
    ensures Calls(t, flags, [v]) == LeafCalls(t, flags, v, 0)
  {
    assert Calls(t, flags, [v][1..]) == [];
  }

  lemma CompareTodo(t: Tree, flags: seq<bool>, b: nat, tokens: seq<string>)
    requires b < |t| && StackOk(t, Compare(t, b, tokens))
    ensures AllTodo(t, flags, Compare(t, b, tokens)) == Calls(t, flags, VisitsBranch(t, b, tokens))
  {
    CallsOne(t, flags, b);
    if TakesToken(t[b].topic, tokens) {
      if |tokens| == 1 {
        TodoTwo(t, flags, Enter(b, tokens[1..]), Leaves(b));
        CallsConcat(t, flags, Visits(t, b, tokens[1..]), [b]);
      } else {
        TodoOne(t, flags, Enter(b, tokens[1..]));
        assert Visits(t, b, tokens[1..]) + [] == Visits(t, b, tokens[1..]);
        assert Compare(t, b, tokens) == [Enter(b, tokens[1..])];
      }
    } else if t[b].topic == "#" && t[b].kids == [] {
      TodoOne(t, flags, Leaves(b));
    }
  }

  /** Two items in front. */
  lemma TodoTwo(t: Tree, flags: seq<bool>, a: Item, b: Item)
    requires ItemOk(t, a) && ItemOk(t, b)
    ensures StackOk(t, [a] + [b]) && AllTodo(t, flags, [a] + [b]) == Todo(t, flags, a) + Todo(t, flags, b)
  {
    TodoOne(t, flags, a);
    TodoOne(t, flags, b);
    TodoConcat(t, flags, [a], [b]);
  }

  /** What the comparison of a root's child is replaced by. */
  function RootCompare(t: Tree, b: nat, tokens: seq<string>): seq<Item>
    requires b < |t| && tokens != []
  {
    if t[b].topic == tokens[0] then [Enter(b, tokens)] else []
  }

  lemma RootCompareTodo(t: Tree, flags: seq<bool>, b: nat, tokens: seq<string>)
    requires b < |t| && tokens != []
    ensures StackOk(t, RootCompare(t, b, tokens))
    ensures AllTodo(t, flags, RootCompare(t, b, tokens)) == Calls(t, flags, RootBranch(t, b, tokens))
  {
    if t[b].topic == tokens[0] {
      TodoOne(t, flags, Enter(b, tokens));
    }
  }

  lemma RootTodo(t: Tree, flags: seq<bool>, count: nat, tokens: seq<string>)
    requires ItemOk(t, Root(count, tokens)) && count > 0 && KidOk(t, 0, t[0].kids[count - 1])
    requires StackOk(t, Expand(t, Root(count, tokens)))
    ensures AllTodo(t, flags, Expand(t, Root(count, tokens))) == Todo(t, flags, Root(count, tokens))
  {
    var b, rest := t[0].kids[count - 1], Root(count - 1, tokens);
    var head := RootCompare(t, b, tokens);
    RootCompareTodo(t, flags, b, tokens);
    TodoOne(t, flags, rest);
    calc {
      AllTodo(t, flags, Expand(t, Root(count, tokens)));
      { assert Expand(t, Root(count, tokens)) == head + [rest]; }
      AllTodo(t, flags, head + [rest]);
      { TodoConcat(t, flags, head, [rest]); }
      Calls(t, flags, RootBranch(t, b, tokens)) + Calls(t, flags, RootVisits(t, count - 1, tokens));
      { RootCalls(t, flags, count, tokens); }
      Todo(t, flags, Root(count, tokens));
    }
  }

  lemma RootVisitsUnfold(t: Tree, count: nat, tokens: seq<string>)
    requires 0 < |t| && 0 < count <= |t[0].kids| && tokens != [] && KidOk(t, 0, t[0].kids[count - 1])
    ensures RootVisits(t, count, tokens) == RootBranch(t, t[0].kids[count - 1], tokens) + RootVisits(t, count - 1, tokens)
  {
  }

  lemma CallsSplit(t: Tree, flags: seq<bool>, visits: seq<nat>, a: seq<nat>, b: seq<nat>)
    requires visits == a + b
    ensures Calls(t, flags, visits) == Calls(t, flags, a) + Calls(t, flags, b)
  {
    CallsConcat(t, flags, a, b);
  }

  lemma RootCalls(t: Tree, flags: seq<bool>, count: nat, tokens: seq<string>)
    requires 0 < |t| && 0 < count <= |t[0].kids| && tokens != [] && KidOk(t, 0, t[0].kids[count - 1])
    ensures Calls(t, flags, RootVisits(t, count, tokens)) ==
      Calls(t, flags, RootBranch(t, t[0].kids[count - 1], tokens)) + Calls(t, flags, RootVisits(t, count - 1, tokens))
  {
    RootVisitsUnfold(t, count, tokens);
    CallsSplit(t, flags, RootVisits(t, count, tokens), RootBranch(t, t[0].kids[count - 1], tokens), RootVisits(t, count - 1, tokens));
  }

  lemma BranchTodo(t: Tree, flags: seq<bool>, n: nat, j: nat, tokens: seq<string>)
    requires ItemOk(t, Branch(n, j, tokens)) && KidOk(t, n, t[n].kids[j]) && StackOk(t, Expand(t, Branch(n, j, tokens)))
    ensures AllTodo(t, flags, Expand(t, Branch(n, j, tokens))) == Todo(t, flags, Branch(n, j, tokens))
  {
    var head, next := Compare(t, t[n].kids[j], tokens), NextBranch(n, j, tokens);
    assert Expand(t, Branch(n, j, tokens)) == head + [next];
    assert StackOk(t, head) by {
      assert forall k | 0 <= k < |head| :: head[k] == Expand(t, Branch(n, j, tokens))[k];
    }
    CompareTodo(t, flags, t[n].kids[j], tokens);
    TodoOne(t, flags, next);
    calc {
      AllTodo(t, flags, Expand(t, Branch(n, j, tokens)));
      AllTodo(t, flags, head + [next]);
      { TodoConcat(t, flags, head, [next]); }
      Calls(t, flags, VisitsBranch(t, t[n].kids[j], tokens)) + Todo(t, flags, next);
      { BranchCalls(t, flags, n, j, tokens); }
      Todo(t, flags, Branch(n, j, tokens));
    }
  }

  lemma BranchCalls(t: Tree, flags: seq<bool>, n: nat, j: nat, tokens: seq<string>)
    requires ItemOk(t, Branch(n, j, tokens)) && KidOk(t, n, t[n].kids[j])
    ensures Todo(t, flags, Branch(n, j, tokens)) ==
      Calls(t, flags, VisitsBranch(t, t[n].kids[j], tokens)) + Todo(t, flags, NextBranch(n, j, tokens))
  {
    VisitsFromStep(t, n, j, tokens);
    CallsSplit(t, flags, VisitsFrom(t, n, j, tokens), VisitsBranch(t, t[n].kids[j], tokens), VisitsFrom(t, n, j + 1, tokens));
  }

  lemma VisitsFromStep(t: Tree, n: nat, j: nat, tokens: seq<string>)
    requires n < |t| && j < |t[n].kids| && KidOk(t, n, t[n].kids[j])
    ensures VisitsFrom(t, n, j, tokens) == VisitsBranch(t, t[n].kids[j], tokens) + VisitsFrom(t, n, j + 1, tokens)
  {
  }

  /** A step makes the first of the callbacks that its item stands for, or none, and leaves the others to do. */
  lemma ExpandTodo(s: State, ids: seq<string>, item: Item)
    requires TreeOk(s.t, ids) && ItemOk(s.t, item) && StackOk(s.t, Expand(s.t, item))
    ensures Callback(s, item) + AllTodo(s.t, s.flags, Expand(s.t, item)) == Todo(s.t, s.flags, item)
  {
    match item
    case Root(count, tokens) =>
      if count > 0 {
        assert NodeOk(s.t, ids, 0) && KidOk(s.t, 0, s.t[0].kids[count - 1]);
        RootTodo(s.t, s.flags, count, tokens);
      }
    case Branch(n, j, tokens) =>
      assert NodeOk(s.t, ids, n) && KidOk(s.t, n, s.t[n].kids[j]);
      BranchTodo(s.t, s.flags, n, j, tokens);
    case AtLeaf(n, i) =>
      TodoOne(s.t, s.flags, NextLeaf(n, i));
    case _ => LinkTodo(s.t, s.flags, item);
  }

  /** A read of a link leads to the next place of its list, or to its end. */
  lemma LinkTodo(t: Tree, flags: seq<bool>, item: Item)
    requires ItemOk(t, item) && StackOk(t, Expand(t, item))
    requires item.Enter? || item.NextBranch? || item.Leaves? || item.NextLeaf?
    ensures AllTodo(t, flags, Expand(t, item)) == Todo(t, flags, item)
  {
    if Expand(t, item) != [] {
      TodoOne(t, flags, Expand(t, item)[0]);
      assert Expand(t, item) == [Expand(t, item)[0]];
    } else if item.Enter? {
      assert Visits(t, item.node, item.tokens) == [];
    } else if item.NextBranch? {
      assert VisitsFrom(t, item.node, item.at + 1, item.tokens) == [];
    }
  }

  lemma Regroup(calls: seq<(nat, nat)>, made: seq<(nat, nat)>, due: seq<(nat, nat)>, later: seq<(nat, nat)>)
    ensures (calls + made) + (due + later) == calls + ((made + due) + later)
  {
  }

  lemma SearchStepTodo(ids: seq<string>, s: State, s': State)
    requires TreeOk(s.t, ids) && StackOk(s.t, s.stack) && SearchStep(s, s')
    ensures StackOk(s.t, s'.stack)
    ensures s'.calls + AllTodo(s.t, s.flags, s'.stack) == s.calls + AllTodo(s.t, s.flags, s.stack)
  {
    var item, rest := s.stack[0], s.stack[1..];
    ExpandOk(s.t, ids, item);
    ExpandTodo(s, ids, item);
    TodoConcat(s.t, s.flags, Expand(s.t, item), rest);
    Regroup(s.calls, Callback(s, item), AllTodo(s.t, s.flags, Expand(s.t, item)), AllTodo(s.t, s.flags, rest));
  }

  /** Nobody but the searcher has moved. */
  predicate Alone(run: seq<State>) {
    |run| > 0 && forall k | 0 <= k < |run| - 1 :: SearchStep(run[k], run[k + 1])
  }

  lemma {:induction false} AloneTodo(ids: seq<string>, run: seq<State>, topic: string, k: nat)
    requires Alone(run) && TreeOk(run[0].t, ids) && Starts(run[0], topic) && k < |run|
    ensures run[k].t == run[0].t && run[k].flags == run[0].flags && StackOk(run[0].t, run[k].stack)
    ensures run[k].calls + AllTodo(run[0].t, run[0].flags, run[k].stack) == Publish(run[0].t, run[0].flags, topic)
  {
    if k == 0 {
      TodoOne(run[0].t, run[0].flags, run[0].stack[0]);
    } else {
      AloneTodo(ids, run, topic, k - 1);
      assert SearchStep(run[k - 1], run[k]);
      SearchStepTodo(ids, run[k - 1], run[k]);
    }
  }

  /** Read by read, an undisturbed search makes the callbacks of the publish, in their order. */
  lemma AloneIsPublish(ids: seq<string>, run: seq<State>, topic: string)
    requires Alone(run) && TreeOk(run[0].t, ids) && Starts(run[0], topic) && run[|run| - 1].stack == []
    ensures run[|run| - 1].calls == Publish(run[0].t, run[0].flags, topic)
  {
    AloneTodo(ids, run, topic, |run| - 1);
  }

  // ---------- the search gets on, and ends ----------

  /** As long as anything is left to do, the next read can be made, whatever others do. */
  lemma SearchGoesOn(ids: seq<string>, run: seq<State>, topic: string, k: nat) returns (next: State)
    requires Run(ids, run) && TreeOk(run[0].t, ids) && Starts(run[0], topic) && k < |run| && run[k].stack != []
    ensures SearchStep(run[k], next)
  {
    RunTotal(ids, run, topic, [], 0, k);
    var item := run[k].stack[0];
    next := run[k].(stack := Expand(run[k].t, item) + run[k].stack[1..], calls := run[k].calls + Callback(run[k], item));
  }

  /** The reads that a walk below node n takes, from the link to its children on. */
  function Reads(t: Tree, n: nat, tokens: seq<string>): nat
    requires n < |t|
    decreases |t| - n, 1, 0
  {
    1 + ReadsFrom(t, n, 0, tokens)
  }

  function ReadsFrom(t: Tree, n: nat, j: nat, tokens: seq<string>): nat
    requires n < |t|
    decreases |t| - n, 0, |t[n].kids| - j
  {
    if j >= |t[n].kids| || !KidOk(t, n, t[n].kids[j]) then 0
    else 1 + ReadsBranch(t, t[n].kids[j], tokens) + 1 + ReadsFrom(t, n, j + 1, tokens)
  }

  function ReadsBranch(t: Tree, b: nat, tokens: seq<string>): nat
    requires b < |t|
    decreases |t| - b, 2, 0
  {
    if TakesToken(t[b].topic, tokens) then
      Reads(t, b, tokens[1..]) + (if |tokens| == 1 then LeafReads(t, b) else 0)
    else if t[b].topic == "#" && t[b].kids == [] then LeafReads(t, b)
    else 0
  }

  /** The link to a node's leaves, and for each of them the test and the next link. */
  function LeafReads(t: Tree, n: nat): nat
    requires n < |t|
  {
    1 + 2 * |t[n].leaves|
  }

  function RootReads(t: Tree, count: nat, tokens: seq<string>): nat
    requires |t| > 0 && count <= |t[0].kids| && tokens != []
  {
    if count == 0 then 1
    else
      var b := t[0].kids[count - 1];
      1 + (if b < |t| && t[b].topic == tokens[0] then Reads(t, b, tokens) else 0) + RootReads(t, count - 1, tokens)
  }

  /** The reads that an item stands for if the tree stays as it is. */
  function Cost(t: Tree, item: Item): nat
    requires ItemOk(t, item)
  {
    match item
    case Root(count, tokens) => RootReads(t, count, tokens)
    case Enter(n, tokens) => Reads(t, n, tokens)
    case Branch(n, j, tokens) => ReadsFrom(t, n, j, tokens)
    case NextBranch(n, j, tokens) => 1 + ReadsFrom(t, n, j + 1, tokens)
    case Leaves(n) => LeafReads(t, n)
    case AtLeaf(n, i) => 2 * (|t[n].leaves| - i)
    case NextLeaf(n, i) => 2 * (|t[n].leaves| - i) - 1
  }

  function AllCost(t: Tree, stack: seq<Item>): nat
    requires StackOk(t, stack)
  {
    if stack == [] then 0 else Cost(t, stack[0]) + AllCost(t, stack[1..])
  }

  lemma {:induction false} CostConcat(t: Tree, a: seq<Item>, b: seq<Item>)
    requires StackOk(t, a) && StackOk(t, b)
    ensures StackOk(t, a + b) && AllCost(t, a + b) == AllCost(t, a) + AllCost(t, b)
  {
    if a == [] {
      assert a + b == b;
    } else {
      assert (a + b)[1..] == a[1..] + b;
      CostConcat(t, a[1..], b);
    }
  }

  lemma CostOne(t: Tree, item: Item)
    requires ItemOk(t, item)
    ensures StackOk(t, [item]) && AllCost(t, [item]) == Cost(t, item)
  {
    assert [item][1..] == [];
  }

  lemma CostTwo(t: Tree, a: Item, b: Item)
    requires ItemOk(t, a) && ItemOk(t, b)
    ensures StackOk(t, [a] + [b]) && AllCost(t, [a] + [b]) == Cost(t, a) + Cost(t, b)
  {
    CostOne(t, a);
    CostOne(t, b);
    CostConcat(t, [a], [b]);
  }

  lemma CompareCost(t: Tree, b: nat, tokens: seq<string>)
    requires b < |t| && StackOk(t, Compare(t, b, tokens))
    ensures AllCost(t, Compare(t, b, tokens)) == ReadsBranch(t, b, tokens)
  {
    if TakesToken(t[b].topic, tokens) {
      if |tokens| == 1 {
        CostTwo(t, Enter(b, tokens[1..]), Leaves(b));
      } else {
        assert Compare(t, b, tokens) == [Enter(b, tokens[1..])];
        CostOne(t, Enter(b, tokens[1..]));
      }
    } else if t[b].topic == "#" && t[b].kids == [] {
      CostOne(t, Leaves(b));
    }
  }

  lemma BranchCost(t: Tree, n: nat, j: nat, tokens: seq<string>)
    requires ItemOk(t, Branch(n, j, tokens)) && KidOk(t, n, t[n].kids[j]) && StackOk(t, Expand(t, Branch(n, j, tokens)))
    ensures AllCost(t, Expand(t, Branch(n, j, tokens))) + 1 == Cost(t, Branch(n, j, tokens))
  {
    var head, next := Compare(t, t[n].kids[j], tokens), NextBranch(n, j, tokens);
    assert Expand(t, Branch(n, j, tokens)) == head + [next];
    assert StackOk(t, head) by {
      assert forall k | 0 <= k < |head| :: head[k] == Expand(t, Branch(n, j, tokens))[k];
    }
    CompareCost(t, t[n].kids[j], tokens);
    CostOne(t, next);
    CostConcat(t, head, [next]);
  }

  lemma RootCost(t: Tree, count: nat, tokens: seq<string>)
    requires ItemOk(t, Root(count, tokens)) && count > 0 && StackOk(t, Expand(t, Root(count, tokens)))
    ensures AllCost(t, Expand(t, Root(count, tokens))) + 1 == Cost(t, Root(count, tokens))
  {
    var b, rest := t[0].kids[count - 1], Root(count - 1, tokens);
    if b < |t| && t[b].topic == tokens[0] {
      CostTwo(t, Enter(b, tokens), rest);
    } else {
      assert Expand(t, Root(count, tokens)) == [rest];
      CostOne(t, rest);
    }
  }

  /** Every read is one less to do. */
  lemma ExpandCost(t: Tree, ids: seq<string>, item: Item)
    requires TreeOk(t, ids) && ItemOk(t, item) && StackOk(t, Expand(t, item))
    ensures AllCost(t, Expand(t, item)) + 1 == Cost(t, item)
  {
    match item
    case Root(count, tokens) =>
      if count > 0 {
        RootCost(t, count, tokens);
      }
    case Branch(n, j, tokens) =>
      assert NodeOk(t, ids, n) && KidOk(t, n, t[n].kids[j]);
      BranchCost(t, n, j, tokens);
    case _ => LinkCost(t, item);
  }

  lemma LinkCost(t: Tree, item: Item)
    requires ItemOk(t, item) && StackOk(t, Expand(t, item)) && !item.Root? && !item.Branch?
    ensures AllCost(t, Expand(t, item)) + 1 == Cost(t, item)
  {
    if Expand(t, item) != [] {
      CostOne(t, Expand(t, item)[0]);
      assert Expand(t, item) == [Expand(t, item)[0]];
    } else if item.Enter? {
      assert ReadsFrom(t, item.node, 0, item.tokens) == 0;
    } else if item.NextBranch? {
      assert ReadsFrom(t, item.node, item.at + 1, item.tokens) == 0;
    }
  }

  lemma {:induction false} AloneCost(ids: seq<string>, run: seq<State>, topic: string, k: nat)
    requires Alone(run) && TreeOk(run[0].t, ids) && Starts(run[0], topic) && k < |run|
    ensures run[k].t == run[0].t && StackOk(run[0].t, run[0].stack) && StackOk(run[0].t, run[k].stack)
    ensures k + AllCost(run[0].t, run[k].stack) == AllCost(run[0].t, run[0].stack)
  {
    if k > 0 {
      AloneCost(ids, run, topic, k - 1);
      assert SearchStep(run[k - 1], run[k]);
      var t, item, rest := run[0].t, run[k - 1].stack[0], run[k - 1].stack[1..];
      ExpandOk(t, ids, item);
      ExpandCost(t, ids, item);
      CostConcat(t, Expand(t, item), rest);
    }
  }

  /** An undisturbed search ends after exactly as many reads as the tree and the topic ask for: it is at its end then, and
      not before. */
  lemma AloneEnds(ids: seq<string>, run: seq<State>, topic: string)
    requires Alone(run) && TreeOk(run[0].t, ids) && Starts(run[0], topic)
    ensures |run| - 1 <= RootReads(run[0].t, |run[0].t[0].kids|, Tokens(topic))
    ensures run[|run| - 1].stack == [] <==> |run| - 1 == RootReads(run[0].t, |run[0].t[0].kids|, Tokens(topic))
  {
    var last := |run| - 1;
    AloneCost(ids, run, topic, last);
    CostOne(run[0].t, run[0].stack[0]);
    if run[last].stack != [] {
      ExpandOk(run[0].t, ids, run[last].stack[0]);
      ExpandCost(run[0].t, ids, run[last].stack[0]);
    }
  }

  // ---------- an add is a series of such writes ----------

  ghost predicate WriteChain(ids: seq<string>, trees: seq<Tree>)
  {
    |trees| > 0 && forall k | 0 <= k < |trees| - 1 :: Written(ids, trees[k], trees[k + 1])
  }

  lemma PrependWrite(ids: seq<string>, t: Tree, trees: seq<Tree>, w: Write)
    requires WriteChain(ids, trees) && TreeStep(ids, t, trees[0], w)
    ensures WriteChain(ids, [t] + trees)
  {
    var all := [t] + trees;
    forall k | 0 <= k < |all| - 1 ensures Written(ids, all[k], all[k + 1]) {
      if k > 0 {
        assert all[k] == trees[k - 1] && all[k + 1] == trees[k];
      }
    }
  }

  /** _sub_add makes one visible write after another, each of them one the search above allows for. */
  lemma {:induction false} AddAtIsWrites(t: Tree, ids: seq<string>, n: nat, tokens: seq<string>, client: nat, qos: int)
      returns (trees: seq<Tree>)
    requires TreeOk(t, ids) && n < |t| && client < |ids|
    requires ValidLevels(tokens) && (t[n].topic == "#" ==> tokens == [])
    ensures WriteChain(ids, trees) && trees[0] == t && trees[|trees| - 1] == AddAt(t, ids, n, tokens, client, qos)
    decreases |tokens|
  {
    if tokens == [] {
      trees := [t, PutLeaf(t, ids, n, client, qos)];
      var i := PutLeafAt(t, ids, n, client, qos);
      var w := if i < |t[n].leaves| then Qos(n, i, qos) else NewLeaf(n, Leaf(client, qos));
      assert NodeOk(t, ids, n);
      assert TreeStep(ids, trees[0], trees[1], w);
    } else {
      assert tokens == [tokens[0]] + tokens[1..];
      ValidLevelsCons(tokens[0], tokens[1..]);
      if HasKid(t, n, tokens[0]) {
        trees := AddAtIsWrites(t, ids, KidNamed(t, n, tokens[0]), tokens[1..], client, qos);
      } else {
        var w := Child(n, tokens[0]);
        var u := LinkChild(t, n, tokens[0]);
        WriteOk(t, ids, w);
        var rest := AddAtIsWrites(u, ids, |t|, tokens[1..], client, qos);
        assert TreeStep(ids, t, rest[0], w);
        PrependWrite(ids, t, rest, w);
        trees := [t] + rest;
      }
    }
  }
}
