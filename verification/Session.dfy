/** handle_mqtt_command: what one received command does to the tree, to the queues and to the session. */
module Session {
  import opened Seqs
  import opened Wire
  import opened Messages
  import opened RoundTrip
  import opened Topics
  import opened Matching
  import opened Copies
  import SendMachine
  import T = SubTree
  import Q = SendQueue

  /** The bytes that string functions see of a buffer that was closed with a NUL: all before the first NUL. */
  function CString(s: seq<byte>): (r: seq<byte>)
    ensures r <= s && 0 !in r && (r == s || s[|r|] == 0)
  {
    if s == [] || s[0] == 0 then [] else [s[0]] + CString(s[1..])
  }

  /** A topic without a NUL is seen as it is. */
  lemma CStringWhole(s: seq<byte>)
    ensures CString(s) == s <==> 0 !in s
  {
  }

  function Letters(s: seq<byte>): (r: string)
    ensures |r| == |s| && forall i :: 0 <= i < |r| ==> r[i] == s[i] as char
  {
    seq(|s|, i requires 0 <= i < |s| => s[i] as char)
  }

  function Repeat(packet: seq<byte>, n: nat): (q: seq<seq<byte>>)
    ensures |q| == n && forall i :: 0 <= i < n ==> q[i] == packet
  {
    seq(n, _ => packet)
  }

  // ---------- publish_msg as the callback of the tree ----------

  /** The queue of each client; a struct client is here its part in the tree and its part that sends. */
  type Queues = map<T.Client, Q.Client>

  /** A queue in order, whose packets are among these. */
  ghost predicate QueueOk(q: Q.Client, packets: set<Q.Packet>)
    reads q, packets
  {
    && q.repr <= packets
    && (forall p :: p in q.packets ==> p in q.repr)
    && (q.sendingCurPacket != null ==> q.sendingCurPacket in q.repr)
    && q.Valid()
  }

  /** All queues are in order, and no two clients share a queue or a packet. */
  ghost predicate QueuesOk(queueOf: Queues, packets: set<Q.Packet>)
    reads queueOf.Values, packets
  {
    && (forall x :: x in queueOf ==> QueueOk(queueOf[x], packets))
    && (forall x, y :: x in queueOf && y in queueOf && x != y ==> queueOf[x] != queueOf[y] && queueOf[x].repr !! queueOf[y].repr)
  }

  /** Nothing is lost, and what is new is newly allocated. */
  twostate predicate Gained(new packets: set<Q.Packet>, new packets': set<Q.Packet>) {
    packets <= packets' && forall p :: p in packets' ==> p in packets || fresh(p)
  }

  /** What a client has to send, the counter, the message id it keeps, the packet in hand, and what send has taken. */
  datatype Backlog = Backlog(queue: seq<seq<byte>>, count: int, mid: nat, hand: Q.Packet?, accepted: seq<byte>)

  ghost function Now(q: Q.Client): Backlog
    reads q
  {
    Backlog(q.Queue(), q.numSendingPack, q.lastMid, q.sendingCurPacket, q.accepted)
  }

  /** A packet more, and counted. */
  function More(b: Backlog, packet: seq<byte>): Backlog {
    b.(queue := b.queue + [packet], count := b.count + 1)
  }

  method PublishMine(q: Q.Client, topic: seq<byte>, payload: seq<byte>, ghost packets: set<Q.Packet>)
    returns (ghost packets': set<Q.Packet>)
    requires QueueOk(q, packets) && 2 + |topic| + |payload| <= MAX_LENGTH
    modifies q, q.repr`next
    ensures QueueOk(q, packets') && packets' == packets + q.repr && fresh(q.repr - old(q.repr))
    ensures Now(q) == More(old(Now(q)), Bytes(PublishMessageOf(topic, payload)))
  {
    q.PublishMsg(topic, payload);
    packets' := packets + q.repr;
    assert forall i :: 0 <= i < |q.packets| ==> q.packets[i] in q.repr;
  }

  /** One callback: one packet more for this client, none for the others. */
  method PublishOne(x: T.Client, queueOf: Queues, topic: seq<byte>, payload: seq<byte>, ghost packets: set<Q.Packet>)
    returns (ghost packets': set<Q.Packet>)
    requires x in queueOf && QueuesOk(queueOf, packets)
    requires 2 + |topic| + |payload| <= MAX_LENGTH
    modifies queueOf[x], queueOf[x].repr`next
    ensures QueuesOk(queueOf, packets') && Gained(packets, packets')
    ensures Now(queueOf[x]) == More(old(Now(queueOf[x])), Bytes(PublishMessageOf(topic, payload)))
    ensures forall y :: y in queueOf && y != x ==> Now(queueOf[y]) == old(Now(queueOf[y]))
  {
    packets' := PublishMine(queueOf[x], topic, payload, packets);
    forall y | y in queueOf && y != x
      ensures QueueOk(queueOf[y], packets')
    {
      assert old(QueueOk(queueOf[y], packets));
    }
  }

  ghost predicate Grown(before: Backlog, after: Backlog, packet: seq<byte>, n: nat) {
    after == before.(queue := before.queue + Repeat(packet, n), count := before.count + n)
  }

  lemma GrownMore(before: Backlog, after: Backlog, packet: seq<byte>, n: nat)
    requires Grown(before, after, packet, n)
    ensures Grown(before, More(after, packet), packet, n + 1)
  {
    assert Repeat(packet, n + 1) == Repeat(packet, n) + [packet];
  }

  lemma CountNext(called: seq<T.Client>, i: nat)
    requires i < |called|
    ensures multiset(called[..i + 1]) == multiset(called[..i])[called[i] := multiset(called[..i])[called[i]] + 1]
  {
    assert called[..i + 1] == called[..i] + [called[i]];
  }

  /** Every queue is what it was, and one packet for each of its calls. */
  ghost predicate AllGrown(queueOf: Queues, was: map<T.Client, Backlog>, packet: seq<byte>, calls: multiset<T.Client>)
    reads queueOf.Values
  {
    forall y :: y in queueOf ==> y in was && Grown(was[y], Now(queueOf[y]), packet, calls[y])
  }

  /** One more call. */
  method FanOne(x: T.Client, queueOf: Queues, topic: seq<byte>, payload: seq<byte>,
                ghost was: map<T.Client, Backlog>, ghost calls: multiset<T.Client>, ghost packets: set<Q.Packet>)
    returns (ghost packets': set<Q.Packet>)
    requires x in queueOf && QueuesOk(queueOf, packets)
    requires 2 + |topic| + |payload| <= MAX_LENGTH
    requires AllGrown(queueOf, was, Bytes(PublishMessageOf(topic, payload)), calls)
    modifies queueOf[x], queueOf[x].repr`next
    ensures QueuesOk(queueOf, packets') && Gained(packets, packets')
    ensures AllGrown(queueOf, was, Bytes(PublishMessageOf(topic, payload)), calls[x := calls[x] + 1])
  {
    GrownMore(was[x], Now(queueOf[x]), Bytes(PublishMessageOf(topic, payload)), calls[x]);
    packets' := PublishOne(x, queueOf, topic, payload, packets);
  }

  ghost function QueuesNow(queueOf: Queues): map<T.Client, Backlog>
    reads queueOf.Values
  {
    map y | y in queueOf :: Now(queueOf[y])
  }

  /** The first i callbacks have been made. */
  ghost predicate Fanned(called: seq<T.Client>, i: nat, queueOf: Queues, was: map<T.Client, Backlog>, packet: seq<byte>,
                         packets: set<Q.Packet>)
    reads queueOf.Values, packets
  {
    i <= |called| && QueuesOk(queueOf, packets) && AllGrown(queueOf, was, packet, multiset(called[..i]))
  }

  method FanNext(called: seq<T.Client>, i: nat, queueOf: Queues, topic: seq<byte>, payload: seq<byte>,
                 ghost was: map<T.Client, Backlog>, ghost packets: set<Q.Packet>)
    returns (i': nat, ghost packets': set<Q.Packet>)
    requires i < |called| && called[i] in queueOf && 2 + |topic| + |payload| <= MAX_LENGTH
    requires Fanned(called, i, queueOf, was, Bytes(PublishMessageOf(topic, payload)), packets)
    modifies queueOf.Values, packets
    ensures Fanned(called, i', queueOf, was, Bytes(PublishMessageOf(topic, payload)), packets')
    ensures i' == i + 1 && Gained(packets, packets')
  {
    i' := i + 1;
    CountNext(called, i);
    packets' := FanOne(called[i], queueOf, topic, payload, was, multiset(called[..i]), packets);
  }

  /** The callbacks of a publish, in order: each client gets as many packets as it is called. */
  method FanOut(called: seq<T.Client>, queueOf: Queues, topic: seq<byte>, payload: seq<byte>, ghost packets: set<Q.Packet>)
    returns (ghost packets': set<Q.Packet>)
    requires QueuesOk(queueOf, packets) && forall x :: x in called ==> x in queueOf
    requires 2 + |topic| + |payload| <= MAX_LENGTH
    modifies queueOf.Values, packets
    ensures QueuesOk(queueOf, packets') && Gained(packets, packets')
    ensures AllGrown(queueOf, old(QueuesNow(queueOf)), Bytes(PublishMessageOf(topic, payload)), multiset(called))
  {
    packets' := packets;
    var i := 0;
    ghost var was := QueuesNow(queueOf);
    while i < |called|
      invariant Fanned(called, i, queueOf, was, Bytes(PublishMessageOf(topic, payload)), packets')
      invariant Gained(packets, packets')
    {
      i, packets' := FanNext(called, i, queueOf, topic, payload, was, packets');
    }
    assert called[..i] == called;
  }

  /** An answer to one client: ack_msg. */
  method AckMine(q: Q.Client, kind: nat, payloadLength: nat, retCode: byte, ghost packets: set<Q.Packet>)
    returns (ghost packets': set<Q.Packet>)
    requires QueueOk(q, packets) && payloadLength <= MAX_LENGTH && kind in {CONNACK, SUBACK, PINGRESP}
    modifies q, q.repr`next
    ensures QueueOk(q, packets') && packets' == packets + q.repr && fresh(q.repr - old(q.repr))
    ensures Now(q) == More(old(Now(q)), Bytes(Q.AckOf(kind, payloadLength, retCode, old(q.lastMid))))
  {
    q.AckMsg(kind, payloadLength, retCode);
    packets' := packets + q.repr;
    assert forall i :: 0 <= i < |q.packets| ==> q.packets[i] in q.repr;
  }

  method AckOne(x: T.Client, queueOf: Queues, kind: nat, payloadLength: nat, retCode: byte, ghost packets: set<Q.Packet>)
    returns (ghost packets': set<Q.Packet>)
    requires x in queueOf && QueuesOk(queueOf, packets)
    requires payloadLength <= MAX_LENGTH && kind in {CONNACK, SUBACK, PINGRESP}
    modifies queueOf[x], queueOf[x].repr`next
    ensures QueuesOk(queueOf, packets') && Gained(packets, packets')
    ensures Now(queueOf[x]) == More(old(Now(queueOf[x])), Bytes(Q.AckOf(kind, payloadLength, retCode, old(queueOf[x].lastMid))))
    ensures forall y :: y in queueOf && y != x ==> Now(queueOf[y]) == old(Now(queueOf[y]))
  {
    packets' := AckMine(queueOf[x], kind, payloadLength, retCode, packets);
    forall y | y in queueOf && y != x
      ensures QueueOk(queueOf[y], packets')
    {
      assert old(QueueOk(queueOf[y], packets));
    }
  }

  /** The client has this answer more in its queue, and counted, and else nothing has changed, for it and all others. */
  ghost predicate Answered(x: T.Client, queueOf: Queues, was: map<T.Client, Backlog>, m: Value)
    requires Writable(m)
    reads queueOf.Values
  {
    forall y :: y in queueOf ==> y in was && Now(queueOf[y]) == if y == x then More(was[y], Bytes(m)) else was[y]
  }

  // ---------- the dispatcher ----------

  /** With another message id kept for one client. */
  ghost function WithMid(was: map<T.Client, Backlog>, x: T.Client, mid: nat): map<T.Client, Backlog>
    requires x in was
  {
    was[x := was[x].(mid := mid)]
  }

  /** With another value of one client's counter. */
  ghost function WithCount(was: map<T.Client, Backlog>, x: T.Client, count: int): map<T.Client, Backlog>
    requires x in was
  {
    was[x := was[x].(count := count)]
  }

  /** Only one client's queue has been written to. */
  twostate lemma OneChanged(queueOf: Queues, new x: T.Client, new after: Backlog)
    requires x in queueOf && Now(queueOf[x]) == after
    requires forall y :: y in queueOf && y != x ==> Now(queueOf[y]) == old(Now(queueOf[y]))
    ensures QueuesNow(queueOf) == old(QueuesNow(queueOf))[x := after]
  {
  }

  /** context->last_mid is written; nothing else changes by it. */
  method SetMid(x: T.Client, q: Q.Client, mid: nat, ghost queueOf: Queues, ghost packets: set<Q.Packet>)
    requires x in queueOf && q == queueOf[x] && QueuesOk(queueOf, packets)
    modifies q`lastMid
    ensures QueuesOk(queueOf, packets) && QueuesNow(queueOf) == WithMid(old(QueuesNow(queueOf)), x, mid)
  {
    SetMidOnly(x, q, mid, queueOf, packets);
    OneChanged(queueOf, x, Now(queueOf[x]));
  }

  method SetMidOnly(x: T.Client, q: Q.Client, mid: nat, ghost queueOf: Queues, ghost packets: set<Q.Packet>)
    requires x in queueOf && q == queueOf[x] && QueuesOk(queueOf, packets)
    modifies q`lastMid
    ensures q.lastMid == mid && QueuesOk(queueOf, packets)
  {
    q.SetMid(mid);
    forall y | y in queueOf && y != x
      ensures QueueOk(queueOf[y], packets)
    {
      assert old(QueueOk(queueOf[y], packets));
    }
  }

  /** The message id is kept, and the answer enqueued. */
  method AckAs(x: T.Client, queueOf: Queues, mid: nat, kind: nat, payloadLength: nat, retCode: byte, ghost packets: set<Q.Packet>)
    returns (ghost packets': set<Q.Packet>)
    requires x in queueOf && QueuesOk(queueOf, packets)
    requires payloadLength <= MAX_LENGTH && kind in {CONNACK, SUBACK, PINGRESP}
    modifies queueOf[x], queueOf[x].repr`next
    ensures QueuesOk(queueOf, packets') && Gained(packets, packets')
    ensures Answered(x, queueOf, WithMid(old(QueuesNow(queueOf)), x, mid), Q.AckOf(kind, payloadLength, retCode, mid))
  {
    SetMid(x, queueOf[x], mid, queueOf, packets);
    packets' := AckOne(x, queueOf, kind, payloadLength, retCode, packets);
  }

  /** The message id is kept, and the callbacks run. */
  method Announce(context: T.Client, mid: nat, called: seq<T.Client>, queueOf: Queues, topic: seq<byte>, payload: seq<byte>,
                  ghost packets: set<Q.Packet>)
    returns (ghost packets': set<Q.Packet>)
    requires context in queueOf && QueuesOk(queueOf, packets) && forall x :: x in called ==> x in queueOf
    requires 2 + |topic| + |payload| <= MAX_LENGTH
    modifies queueOf.Values, packets
    ensures QueuesOk(queueOf, packets') && Gained(packets, packets')
    ensures AllGrown(queueOf, WithMid(old(QueuesNow(queueOf)), context, mid), Bytes(PublishMessageOf(topic, payload)), multiset(called))
  {
    SetMid(context, queueOf[context], mid, queueOf, packets);
    packets' := FanOut(called, queueOf, topic, payload, packets);
  }

  /** The tree is the one for the subscriptions so far. */
  ghost predicate TreeOk(b: T.Broker, history: seq<Sub>)
    reads b, b.nodes, b.leafSet
  {
    b.Valid() && Matching.Known(b.Ids(), history) && b.tree == TreeOf(b.Ids(), history)
  }

  /** The clients that a publish on this topic calls back, in order. */
  ghost function Receivers(b: T.Broker, topic: seq<byte>): seq<T.Client>
    requires b.Valid()
    reads b, b.nodes, b.leafSet, b.clients
  {
    b.Contexts(Matching.Publish(b.tree, b.Flags(), Letters(topic)))
  }

  /** The walk for a publish. */
  method Walk(b: T.Broker, topic: seq<byte>) returns (called: seq<T.Client>)
    requires b.Valid()
    ensures called == old(Receivers(b, topic)) && forall x :: x in called ==> x in b.clients
  {
    called := b.TreeProcess(Letters(topic));
    ContextsAreClients(b, Matching.Publish(b.tree, b.Flags(), Letters(topic)));
  }

  /** A PUBLISH at QoS 0 (broker/hand_mqtt.c:109-134): the topic ends at its first NUL, here and in what is sent on.
      The walk reads nothing that the callbacks write, so it may come first. */
  method HandlePublish(b: T.Broker, queueOf: Queues, context: T.Client, m: Value, ghost packets: set<Q.Packet>)
    returns (ghost packets': set<Q.Packet>)
    requires b.Valid() && QueuesOk(queueOf, packets) && context in queueOf && forall x :: x in b.clients ==> x in queueOf
    requires 2 + |m.publish.topicName| + |m.publish.content| <= MAX_LENGTH
    modifies queueOf.Values, packets
    ensures QueuesOk(queueOf, packets') && Gained(packets, packets')
    ensures var topic := CString(m.publish.topicName);
      AllGrown(queueOf, WithMid(old(QueuesNow(queueOf)), context, m.publish.messageId),
               Bytes(PublishMessageOf(topic, m.publish.content)), multiset(old(Receivers(b, topic))))
  {
    var topic := CString(m.publish.topicName);
    var called := Walk(b, topic);
    packets' := Announce(context, m.publish.messageId, called, queueOf, topic, m.publish.content, packets);
  }

  /** A SUBSCRIBE (broker/hand_mqtt.c:150-178): its first filter, as far as its first NUL; a client in session only. */
  method HandleSubscribe(b: T.Broker, queueOf: Queues, context: T.Client, ghost c: nat, connected: bool, m: Value,
                         ghost packets: set<Q.Packet>, ghost history: seq<Sub>)
    returns (rc: byte, ghost packets': set<Q.Packet>, ghost history': seq<Sub>)
    requires TreeOk(b, history) && c < |b.clients| && b.clients[c] == context
    requires QueuesOk(queueOf, packets) && context in queueOf
    modifies b`tree, b`nodes, b`leaves, b`leafSet, b.nodes, b.leafSet, context`subs, context`isSubscribe
    modifies queueOf[context], queueOf[context].repr`next
    ensures TreeOk(b, history') && QueuesOk(queueOf, packets') && Gained(packets, packets')
    ensures rc == if connected then 0 else 128
    ensures history' == history + (if connected then [Sub(Letters(CString(m.subscribe.topicName)), c, m.subscribe.qos as int)] else [])
    ensures context.isSubscribe == (connected || old(context.isSubscribe))
    ensures var mid := if connected then m.subscribe.messageId else old(queueOf[context].lastMid);
      Answered(context, queueOf, WithMid(old(QueuesNow(queueOf)), context, mid), Q.AckOf(SUBACK, 3, rc, mid))
    ensures connected && 0 !in m.subscribe.topicName ==>
      history' == history + [Sub(Letters(m.subscribe.topicName), c, m.subscribe.qos as int)]
  {
    var mid := if connected then m.subscribe.messageId else queueOf[context].lastMid;
    rc, history' := EnterInSession(b, context, c, connected, m, history, queueOf, packets);
    packets' := AnswerOnly(context, queueOf, mid, rc, packets, b, history');
  }

  /** All of it but the answer. */
  method EnterInSession(b: T.Broker, context: T.Client, ghost c: nat, connected: bool, m: Value, ghost history: seq<Sub>,
                        ghost queueOf: Queues, ghost packets: set<Q.Packet>)
    returns (rc: byte, ghost history': seq<Sub>)
    requires TreeOk(b, history) && c < |b.clients| && b.clients[c] == context && QueuesOk(queueOf, packets)
    modifies b`tree, b`nodes, b`leaves, b`leafSet, b.nodes, b.leafSet, context`subs, context`isSubscribe
    ensures TreeOk(b, history') && QueuesOk(queueOf, packets) && QueuesNow(queueOf) == old(QueuesNow(queueOf))
    ensures rc == if connected then 0 else 128
    ensures history' == history + (if connected then [Sub(Letters(CString(m.subscribe.topicName)), c, m.subscribe.qos as int)] else [])
    ensures connected && 0 !in m.subscribe.topicName ==>
      history' == history + [Sub(Letters(m.subscribe.topicName), c, m.subscribe.qos as int)]
    ensures context.isSubscribe == (connected || old(context.isSubscribe))
  {
    CStringWhole(m.subscribe.topicName);
    rc, history' := 128, history;
    if connected {
      history' := EnterOnly(b, context, c, Letters(CString(m.subscribe.topicName)), m.subscribe.qos as nat, history, queueOf, packets);
      rc := 0;
    }
  }

  /** The tree's part of it. */
  method Enter(b: T.Broker, context: T.Client, ghost c: nat, filter: string, qos: nat, ghost history: seq<Sub>)
    returns (ghost history': seq<Sub>)
    requires TreeOk(b, history) && c < |b.clients| && b.clients[c] == context
    modifies b`tree, b`nodes, b`leaves, b`leafSet, b.nodes, b.leafSet, context`subs, context`isSubscribe
    ensures TreeOk(b, history') && history' == history + [Sub(filter, c, qos)] && context.isSubscribe
  {
    b.Add(context, c, filter, qos);
    history' := history + [Sub(filter, c, qos)];
    assert history'[..|history|] == history;
    context.isSubscribe := true;
  }

  /** It touches no queue. */
  method EnterOnly(b: T.Broker, context: T.Client, ghost c: nat, filter: string, qos: nat, ghost history: seq<Sub>,
                   ghost queueOf: Queues, ghost packets: set<Q.Packet>)
    returns (ghost history': seq<Sub>)
    requires TreeOk(b, history) && c < |b.clients| && b.clients[c] == context && QueuesOk(queueOf, packets)
    modifies b`tree, b`nodes, b`leaves, b`leafSet, b.nodes, b.leafSet, context`subs, context`isSubscribe
    ensures TreeOk(b, history') && history' == history + [Sub(filter, c, qos)] && context.isSubscribe
    ensures QueuesOk(queueOf, packets) && QueuesNow(queueOf) == old(QueuesNow(queueOf))
  {
    history' := EnterAside(b, context, c, filter, qos, history, queueOf, packets);
    forall y | y in queueOf
      ensures QueueOk(queueOf[y], packets)
    {
      assert old(QueueOk(queueOf[y], packets));
    }
  }

  method EnterAside(b: T.Broker, context: T.Client, ghost c: nat, filter: string, qos: nat, ghost history: seq<Sub>,
                    ghost queueOf: Queues, ghost packets: set<Q.Packet>)
    returns (ghost history': seq<Sub>)
    requires TreeOk(b, history) && c < |b.clients| && b.clients[c] == context
    modifies b`tree, b`nodes, b`leaves, b`leafSet, b.nodes, b.leafSet, context`subs, context`isSubscribe
    ensures TreeOk(b, history') && history' == history + [Sub(filter, c, qos)] && context.isSubscribe
    ensures unchanged(packets) && forall y :: y in queueOf ==> unchanged(queueOf[y])
  {
    history' := Enter(b, context, c, filter, qos, history);
  }

  /** An answer touches no tree. */
  method AckAside(x: T.Client, queueOf: Queues, mid: nat, retCode: byte, ghost packets: set<Q.Packet>, ghost b: T.Broker)
    returns (ghost packets': set<Q.Packet>)
    requires x in queueOf && QueuesOk(queueOf, packets)
    modifies queueOf[x], queueOf[x].repr`next
    ensures QueuesOk(queueOf, packets') && Gained(packets, packets')
    ensures unchanged(b) && unchanged(b.nodes) && unchanged(b.leafSet)
    ensures Answered(x, queueOf, WithMid(old(QueuesNow(queueOf)), x, mid), Q.AckOf(SUBACK, 3, retCode, mid))
  {
    packets' := AckAs(x, queueOf, mid, SUBACK, 3, retCode, packets);
  }

  twostate lemma TreeKept(b: T.Broker, new history: seq<Sub>)
    requires old(TreeOk(b, history)) && unchanged(b) && unchanged(b.nodes) && unchanged(b.leafSet)
    ensures TreeOk(b, history)
  {
  }

  method AnswerOnly(x: T.Client, queueOf: Queues, mid: nat, retCode: byte, ghost packets: set<Q.Packet>,
                    ghost b: T.Broker, ghost history: seq<Sub>)
    returns (ghost packets': set<Q.Packet>)
    requires x in queueOf && QueuesOk(queueOf, packets) && TreeOk(b, history)
    modifies queueOf[x], queueOf[x].repr`next
    ensures QueuesOk(queueOf, packets') && Gained(packets, packets') && TreeOk(b, history)
    ensures Answered(x, queueOf, WithMid(old(QueuesNow(queueOf)), x, mid), Q.AckOf(SUBACK, 3, retCode, mid))
  {
    packets' := AckAside(x, queueOf, mid, retCode, packets, b);
    TreeKept(b, history);
  }

  lemma {:induction false} ContextsAreClients(b: T.Broker, calls: seq<Call>)
    ensures forall x :: x in b.Contexts(calls) ==> x in b.clients
  {
    if calls != [] {
      ContextsAreClients(b, calls[1..]);
    }
  }

  /** An id that opens a session. */
  predicate Opens(m: Value) { 1 <= |m.connect.clientId| <= 23 }

  /** The counter ahead of the answer: a CONNECT that opens the session sets it to 0. */
  ghost function CountBefore(m: Value, count: int): int { if Opens(m) then 0 else count }

  /** A CONNECT (broker/hand_mqtt.c:135-149): an id of more than 23 bytes is refused, an empty one answered like an
      accepted one, and only one in between opens the session and resets the counter of packets, which then is 1. */
  method HandleConnect(queueOf: Queues, context: T.Client, connected: bool, m: Value, ghost packets: set<Q.Packet>)
    returns (rc: byte, connected': bool, ghost packets': set<Q.Packet>)
    requires QueuesOk(queueOf, packets) && context in queueOf
    modifies queueOf[context], queueOf[context].repr`next
    ensures QueuesOk(queueOf, packets') && Gained(packets, packets')
    ensures rc == (if |m.connect.clientId| <= 23 then 0 else 2)
    ensures connected' <==> connected || 1 <= |m.connect.clientId| <= 23
    ensures queueOf[context].numSendingPack == if 1 <= |m.connect.clientId| <= 23 then 1 else old(queueOf[context].numSendingPack) + 1
    ensures Answered(context, queueOf,
                     WithCount(old(QueuesNow(queueOf)), context, CountBefore(m, old(queueOf[context].numSendingPack))),
                     Q.AckOf(CONNACK, 2, rc, old(queueOf[context].lastMid)))
  {
    rc, connected' := 0, connected;
    if |m.connect.clientId| > 23 {
      rc := 2;
    } else if |m.connect.clientId| > 0 {
      ResetOne(context, queueOf[context], queueOf, packets);
      connected' := true;
    }
    packets' := AckAs(context, queueOf, queueOf[context].lastMid, CONNACK, 2, rc, packets);
  }

  /** add_client, as far as it concerns sending. */
  method ResetOne(x: T.Client, q: Q.Client, ghost queueOf: Queues, ghost packets: set<Q.Packet>)
    requires x in queueOf && q == queueOf[x] && QueuesOk(queueOf, packets)
    modifies q`numSendingPack
    ensures QueuesOk(queueOf, packets) && QueuesNow(queueOf) == WithCount(old(QueuesNow(queueOf)), x, 0)
  {
    ResetOnly(x, q, queueOf, packets);
    OneChanged(queueOf, x, Now(queueOf[x]));
  }

  method ResetOnly(x: T.Client, q: Q.Client, ghost queueOf: Queues, ghost packets: set<Q.Packet>)
    requires x in queueOf && q == queueOf[x] && QueuesOk(queueOf, packets)
    modifies q`numSendingPack
    ensures q.numSendingPack == 0 && QueuesOk(queueOf, packets)
  {
    q.ResetCount();
    forall y | y in queueOf && y != x
      ensures QueueOk(queueOf[y], packets)
    {
      assert old(QueueOk(queueOf[y], packets));
    }
  }

  // ---------- a command that is refused ----------

  /** Nothing counted, in hand or taken by send; only the queue is left. */
  function Left(queue: seq<seq<byte>>): Backlog { Backlog(queue, 0, 0, null, []) }

  /** clean_context, which remove_client runs as soon as loop_read has given the connection up (broker/event_io.c:259-261,
      broker/broker.c:35-70): the subscribed mark goes, and the queue stays for the slot's next connection. */
  method CleanUp(x: T.Client, queueOf: Queues, ghost packets: set<Q.Packet>)
    requires x in queueOf && QueuesOk(queueOf, packets)
    modifies x`isSubscribe, queueOf[x]
    ensures QueuesOk(queueOf, packets) && !x.isSubscribe
    ensures QueuesNow(queueOf) == old(QueuesNow(queueOf))[x := Left(old(queueOf[x].Queue()))]
    ensures queueOf[x].offered == SendMachine.Concat(old(queueOf[x].Queue()))
  {
    Unmark(x);
    CleanQueue(x, queueOf[x], queueOf, packets);
    OneChanged(queueOf, x, Left(old(queueOf[x].Queue())));
  }

  method Unmark(x: T.Client)
    modifies x`isSubscribe
    ensures !x.isSubscribe
  {
    x.isSubscribe := false;
  }

  method CleanQueue(x: T.Client, q: Q.Client, ghost queueOf: Queues, ghost packets: set<Q.Packet>)
    requires x in queueOf && q == queueOf[x] && QueuesOk(queueOf, packets)
    modifies q`numSendingPack, q`sendingCurPacket, q`offered, q`accepted, q`lastMid
    ensures QueuesOk(queueOf, packets)
    ensures Now(q) == Left(old(q.Queue())) && q.offered == SendMachine.Concat(old(q.Queue()))
  {
    q.Clean();
    forall y | y in queueOf && y != x
      ensures QueueOk(queueOf[y], packets)
    {
      assert old(QueueOk(queueOf[y], packets));
    }
  }

  /** A queue that is left to the slot's next connection: it is offered all that was queued, and then this answer. The
      other clients' queues are as they were. */
  ghost predicate LeftToNext(x: T.Client, queueOf: Queues, was: map<T.Client, Backlog>, m: Value)
    requires Writable(m)
    reads queueOf.Values
  {
    && (forall y :: y in queueOf ==> y in was && Now(queueOf[y]) == if y == x then Left(was[y].queue + [Bytes(m)]) else was[y])
    && (x in queueOf ==> queueOf[x].offered == SendMachine.Concat(was[x].queue) + Bytes(m))
  }

  /** The clean-up after an answer. */
  method CleanAnswered(x: T.Client, queueOf: Queues, ghost packets: set<Q.Packet>, ghost was: map<T.Client, Backlog>, ghost answer: Value)
    requires x in queueOf && QueuesOk(queueOf, packets) && Writable(answer) && Answered(x, queueOf, was, answer)
    modifies x`isSubscribe, queueOf[x]
    ensures QueuesOk(queueOf, packets) && !x.isSubscribe && LeftToNext(x, queueOf, was, answer)
  {
    SendMachine.ConcatAppend(was[x].queue, Bytes(answer));
    CleanUp(x, queueOf, packets);
    forall y | y in queueOf
      ensures Now(queueOf[y]) == if y == x then Left(was[y].queue + [Bytes(answer)]) else was[y]
    {
      assert Now(queueOf[y]) == QueuesNow(queueOf)[y];
    }
  }

  /** It touches no tree. */
  method CleanAside(x: T.Client, queueOf: Queues, ghost packets: set<Q.Packet>, ghost was: map<T.Client, Backlog>, ghost answer: Value,
                    ghost b: T.Broker)
    requires x in queueOf && QueuesOk(queueOf, packets) && Writable(answer) && Answered(x, queueOf, was, answer)
    modifies x`isSubscribe, queueOf[x]
    ensures QueuesOk(queueOf, packets) && !x.isSubscribe && LeftToNext(x, queueOf, was, answer)
    ensures unchanged(b) && unchanged(b.nodes) && unchanged(b.leafSet)
  {
    CleanAnswered(x, queueOf, packets, was, answer);
  }

  method CleanOnly(x: T.Client, queueOf: Queues, ghost packets: set<Q.Packet>, ghost was: map<T.Client, Backlog>, ghost answer: Value,
                   ghost b: T.Broker, ghost history: seq<Sub>)
    requires x in queueOf && QueuesOk(queueOf, packets) && Writable(answer) && Answered(x, queueOf, was, answer)
    requires TreeOk(b, history)
    modifies x`isSubscribe, queueOf[x]
    ensures QueuesOk(queueOf, packets) && !x.isSubscribe && LeftToNext(x, queueOf, was, answer) && TreeOk(b, history)
  {
    CleanAside(x, queueOf, packets, was, answer, b);
    TreeKept(b, history);
  }

  /** A CONNECT as loop_run serves it: after a refusal the connection is gone before the answer is sent, and the slot's
      next connection is offered it. */
  method ServeConnect(queueOf: Queues, context: T.Client, connected: bool, m: Value, ghost packets: set<Q.Packet>)
    returns (rc: byte, connected': bool, ghost packets': set<Q.Packet>)
    requires QueuesOk(queueOf, packets) && context in queueOf
    modifies queueOf[context], queueOf[context].repr`next, context`isSubscribe
    ensures QueuesOk(queueOf, packets') && Gained(packets, packets')
    ensures rc == (if |m.connect.clientId| <= 23 then 0 else 2)
    ensures connected' <==> rc == 0 && (connected || |m.connect.clientId| >= 1)
    ensures context.isSubscribe == (rc == 0 && old(context.isSubscribe))
    ensures var was := WithCount(old(QueuesNow(queueOf)), context, CountBefore(m, old(queueOf[context].numSendingPack)));
      var answer := Q.AckOf(CONNACK, 2, rc, old(queueOf[context].lastMid));
      if rc == 0 then Answered(context, queueOf, was, answer) else LeftToNext(context, queueOf, was, answer)
  {
    ghost var was := WithCount(QueuesNow(queueOf), context, CountBefore(m, queueOf[context].numSendingPack));
    ghost var mid := queueOf[context].lastMid;
    rc, connected', packets' := HandleConnect(queueOf, context, connected, m, packets);
    if rc != 0 {
      CleanAnswered(context, queueOf, packets', was, Q.AckOf(CONNACK, 2, rc, mid));
      connected' := false;
    }
  }

  /** The same for a SUBSCRIBE. */
  method ServeSubscribe(b: T.Broker, queueOf: Queues, context: T.Client, ghost c: nat, connected: bool, m: Value,
                        ghost packets: set<Q.Packet>, ghost history: seq<Sub>)
    returns (rc: byte, ghost packets': set<Q.Packet>, ghost history': seq<Sub>)
    requires TreeOk(b, history) && c < |b.clients| && b.clients[c] == context
    requires QueuesOk(queueOf, packets) && context in queueOf
    modifies b`tree, b`nodes, b`leaves, b`leafSet, b.nodes, b.leafSet, context`subs, context`isSubscribe
    modifies queueOf[context], queueOf[context].repr`next
    ensures TreeOk(b, history') && QueuesOk(queueOf, packets') && Gained(packets, packets')
    ensures rc == if connected then 0 else 128
    ensures history' == history + (if connected then [Sub(Letters(CString(m.subscribe.topicName)), c, m.subscribe.qos as int)] else [])
    ensures context.isSubscribe == connected
    ensures var mid := if connected then m.subscribe.messageId else old(queueOf[context].lastMid);
      var was, answer := WithMid(old(QueuesNow(queueOf)), context, mid), Q.AckOf(SUBACK, 3, rc, mid);
      if connected then Answered(context, queueOf, was, answer) else LeftToNext(context, queueOf, was, answer)
  {
    ghost var mid := if connected then m.subscribe.messageId else queueOf[context].lastMid;
    ghost var was := WithMid(QueuesNow(queueOf), context, mid);
    rc, packets', history' := HandleSubscribe(b, queueOf, context, c, connected, m, packets, history);
    if rc != 0 {
      CleanOnly(context, queueOf, packets', was, Q.AckOf(SUBACK, 3, rc, mid), b, history');
    }
  }

  // ---------- a CONNECT and the drain behind it ----------

  /** A packet more in the queue stands last in the line. */
  twostate lemma LineLonger(q: Q.Client, new packet: seq<byte>)
    requires q.Queue() == old(q.Queue()) + [packet] && q.sendingCurPacket == old(q.sendingCurPacket)
    ensures q.Line() == old(q.Line()) + [packet]
  {
    if q.sendingCurPacket != null {
      Assoc([q.sendingCurPacket.sendBuf], old(q.Queue()), [packet]);
    }
  }

  /** A CONNECT that opens the session, from the queue's side. */
  method ConnectLine(queueOf: Queues, context: T.Client, q: Q.Client, connected: bool, m: Value, ghost packets: set<Q.Packet>)
    returns (rc: byte, connected': bool, ghost packets': set<Q.Packet>)
    requires QueuesOk(queueOf, packets) && context in queueOf && q == queueOf[context] && Opens(m)
    modifies q, q.repr`next
    ensures QueuesOk(queueOf, packets') && Gained(packets, packets') && rc == 0 && connected'
    ensures q.Now() == old(q.Now()).(line := old(q.Line()) + [[32, 2, 0, 0]], num := 1)
  {
    Q.AckBytes(0, q.lastMid);
    rc, connected', packets' := HandleConnect(queueOf, context, connected, m, packets);
    LineLonger(q, [32, 2, 0, 0]);
  }

  /** One packet of the line, with the answer behind it, has been sent: the answer exactly if the line was empty. */
  ghost predicate SendsOne(p: Q.Progress, p': Q.Progress, answer: seq<byte>)
  {
    if p.line == [] then p'.accepted == p.accepted + answer
    else
      && p.wcur <= |p.line[0]| && p'.accepted == p.accepted + p.line[0][p.wcur..]
      && p.line[1..] + [answer] <= p'.line
  }

  lemma OneIsSent(p: Q.Progress, q: Q.Progress, p': Q.Progress, answer: seq<byte>, cleaned: bool, sent: nat,
                  added: seq<seq<byte>>, answers: seq<Q.Sent>)
    requires q == p.(line := p.line + [answer], num := 1) && (p.line == [] ==> p.wcur == 0)
    requires p.line != [] ==> p.wcur <= |p.line[0]|
    requires Q.DrainOf(q, p', cleaned, sent, added, answers) && Q.AllTook(answers)
    ensures SendsOne(p, p', answer)
  {
    Q.AheadNext(q.line, q.wcur, 0);
    assert q.line[..0] == [];
    if p.line != [] {
      assert q.line[0] == p.line[0] && q.line[1..] == p.line[1..] + [answer];
    }
  }

  /** If send takes something each time, the drain behind a CONNECT that opens the session sends exactly one packet, for
      the counter is 1: the CONNACK exactly if nothing was left in the slot, and else what was first there. */
  method ConnectAndDrain(queueOf: Queues, context: T.Client, connected: bool, m: Value, ghost packets: set<Q.Packet>)
    returns (rc: byte, connected': bool, ghost answers: seq<Q.Sent>)
    requires QueuesOk(queueOf, packets) && context in queueOf && Opens(m)
    modifies queueOf[context], packets
    ensures rc == 0 && connected'
    ensures Q.AllTook(answers) ==> SendsOne(old(queueOf[context].Now()), queueOf[context].Now(), [32, 2, 0, 0])
  {
    var q := queueOf[context];
    q.NothingSent();
    ghost var packets';
    rc, connected', packets' := ConnectLine(queueOf, context, q, connected, m, packets);
    answers := DrainAll(q, old(q.Now()), [32, 2, 0, 0]);
  }

  method DrainAll(q: Q.Client, ghost p: Q.Progress, ghost answer: seq<byte>) returns (ghost answers: seq<Q.Sent>)
    requires q.Valid() && q.Now() == p.(line := p.line + [answer], num := 1)
    requires if p.line == [] then p.wcur == 0 else p.wcur <= |p.line[0]|
    modifies q, q.repr
    ensures Q.AllTook(answers) ==> SendsOne(p, q.Now(), answer)
  {
    ghost var was := q.Now();
    var cleaned; ghost var sent, added;
    cleaned, sent, added, answers := q.Drain();
    if Q.AllTook(answers) {
      OneIsSent(p, was, q.Now(), answer, cleaned, sent, added, answers);
    }
  }

  // ---------- who gets how many ----------

  lemma ReceiversCount(b: T.Broker, history: seq<Sub>, topic: seq<byte>, c: nat)
    requires TreeOk(b, history) && ValidFilters(history) && WildFree(Letters(topic)) && OwnStruct(b, c)
    ensures multiset(Receivers(b, topic))[b.clients[c]] ==
      if b.clients[c].isSubscribe then |OwnFilters(b.Ids(), history, Letters(topic), c)| else 0
    ensures UniqueId(b.Ids(), c) ==>
      OwnFilters(b.Ids(), history, Letters(topic), c) == MatchingFilters(b.Ids(), history, Letters(topic), b.clients[c].id)
  {
    CopiesInHeap(b, Matching.Publish(b.tree, b.Flags(), Letters(topic)), c);
    OneCopyPerMatchingFilter(b.Ids(), history, b.Flags(), Letters(topic), c);
  }

  /** The number of copies that slot c has to get of a publish on this topic: one for each matching filter it owns. */
  ghost function Share(b: T.Broker, history: seq<Sub>, topic: seq<byte>, c: nat): nat
    requires c < |b.clients|
    reads b.clients
  {
    if b.clients[c].isSubscribe then |OwnFilters(b.Ids(), history, Letters(topic), c)| else 0
  }

  /** n copies of the publish stand behind what was queued, and are counted; nothing else has changed, but for the message
      id that the publisher keeps. */
  ghost predicate Reached(q: Q.Client, was: Backlog, topic: seq<byte>, content: seq<byte>, n: nat)
    reads q
  {
    Grown(was.(mid := q.lastMid), Now(q), Bytes(PublishMessageOf(topic, content)), n)
  }

  lemma ReachedOf(queueOf: Queues, was: map<T.Client, Backlog>, context: T.Client, mid: nat, y: T.Client,
                  topic: seq<byte>, content: seq<byte>, calls: multiset<T.Client>)
    requires y in queueOf && context in was
    requires AllGrown(queueOf, WithMid(was, context, mid), Bytes(PublishMessageOf(topic, content)), calls)
    ensures y in was && Reached(queueOf[y], was[y], topic, content, calls[y])
  {
  }

  /** A publish puts into the queue of each slot in session one packet for each matching filter that it, of the slots
      with its id, was the first to subscribe to, behind what is there, and counts it; and into no other queue. */
  method PublishReaches(b: T.Broker, queueOf: Queues, context: T.Client, m: Value, ghost packets: set<Q.Packet>,
                        ghost history: seq<Sub>, ghost c: nat)
    returns (ghost packets': set<Q.Packet>)
    requires TreeOk(b, history) && QueuesOk(queueOf, packets) && context in queueOf && forall x :: x in b.clients ==> x in queueOf
    requires 2 + |m.publish.topicName| + |m.publish.content| <= MAX_LENGTH
    requires ValidFilters(history) && OwnStruct(b, c) && WildFree(Letters(CString(m.publish.topicName)))
    modifies queueOf.Values, packets
    ensures QueuesOk(queueOf, packets') && Gained(packets, packets')
    ensures Reached(queueOf[b.clients[c]], old(Now(queueOf[b.clients[c]])), CString(m.publish.topicName), m.publish.content,
                    old(Share(b, history, CString(m.publish.topicName), c)))
    ensures UniqueId(b.Ids(), c) && old(b.clients[c].isSubscribe) ==>
      old(Share(b, history, CString(m.publish.topicName), c)) ==
        |MatchingFilters(b.Ids(), history, Letters(CString(m.publish.topicName)), b.clients[c].id)|
  {
    ghost var topic := CString(m.publish.topicName);
    ReceiversCount(b, history, topic, c);
    packets' := HandlePublish(b, queueOf, context, m, packets);
    ReachedOf(queueOf, old(QueuesNow(queueOf)), context, m.publish.messageId, b.clients[c], topic, m.publish.content,
              multiset(old(Receivers(b, topic))));
  }

  /** For a topic without a NUL: its own subscribers, and the topic as it was received. */
  method PublishWhole(b: T.Broker, queueOf: Queues, context: T.Client, m: Value, ghost packets: set<Q.Packet>,
                      ghost history: seq<Sub>, ghost c: nat)
    returns (ghost packets': set<Q.Packet>)
    requires TreeOk(b, history) && QueuesOk(queueOf, packets) && context in queueOf && forall x :: x in b.clients ==> x in queueOf
    requires 2 + |m.publish.topicName| + |m.publish.content| <= MAX_LENGTH
    requires ValidFilters(history) && OwnStruct(b, c) && WildFree(Letters(m.publish.topicName)) && 0 !in m.publish.topicName
    modifies queueOf.Values, packets
    ensures QueuesOk(queueOf, packets') && Gained(packets, packets')
    ensures Reached(queueOf[b.clients[c]], old(Now(queueOf[b.clients[c]])), m.publish.topicName, m.publish.content,
                    old(Share(b, history, m.publish.topicName, c)))
    ensures UniqueId(b.Ids(), c) && old(b.clients[c].isSubscribe) ==>
      old(Share(b, history, m.publish.topicName, c)) ==
        |MatchingFilters(b.Ids(), history, Letters(m.publish.topicName), b.clients[c].id)|
  {
    CStringWhole(m.publish.topicName);
    packets' := PublishReaches(b, queueOf, context, m, packets, history, c);
  }
}
