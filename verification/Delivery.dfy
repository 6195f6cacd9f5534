/** The way of packets from the sender's queue to the receiver's parser: messages serialised one after another, written
    out in parts, read by loop_read however the stream is cut, and parsed. */
module Delivery {
  import opened Wire
  import opened Messages
  import opened Parser
  import opened RoundTrip
  import opened Frames
  import opened Reading
  import opened Framing
  import SendMachine
  import SendQueue

  /** What can be put on the wire: a message with a type, whose length field says how long its body is. */
  predicate Sendable(m: Value)
  {
    Writable(m) && m.common.kind >= 1 && m.common.length == |Body(m)| <= MAX_LENGTH
  }

  predicate AllSendable(messages: seq<Value>) { forall i | 0 <= i < |messages| :: Sendable(messages[i]) }

  /** All that the broker sends is of this kind: publish_msg's messages, and ack_msg's as the handler calls it. */
  lemma BrokerSends(topic: seq<byte>, payload: seq<byte>, retCode: byte, mid: nat)
    ensures 2 + |topic| + |payload| <= MAX_LENGTH ==> Sendable(PublishMessageOf(topic, payload))
    ensures Sendable(SendQueue.AckOf(CONNACK, 2, retCode, mid))
    ensures Sendable(SendQueue.AckOf(SUBACK, 3, retCode, mid))
    ensures Sendable(SendQueue.AckOf(PINGRESP, 0, retCode, mid))
  {
    BodySizeExact(PublishMessageOf(topic, payload));
  }

  /** The queue's packets for messages enqueued in this order. */
  function Packets(messages: seq<Value>): (q: seq<seq<byte>>)
    requires AllSendable(messages)
    ensures |q| == |messages| && forall i | 0 <= i < |messages| :: q[i] == Bytes(messages[i])
  {
    seq(|messages|, i requires 0 <= i < |messages| => Bytes(messages[i]))
  }

  function FrameOf(m: Value): Frame
    requires Sendable(m)
  {
    Frame(HeaderByte(m.common), Body(m))
  }

  /** The messages as a receiver's parser is given them. */
  function Sent(messages: seq<Value>): (p: seq<Packet>)
    requires AllSendable(messages)
    ensures |p| == |messages| && forall i | 0 <= i < |messages| :: p[i] == Packet(messages[i].common, Body(messages[i]))
  {
    seq(|messages|, i requires 0 <= i < |messages| => Packet(messages[i].common, Body(messages[i])))
  }

  /** A message is one frame on the wire, not of type 0, and its header comes back from it. */
  lemma PacketIsFrame(m: Value)
    requires Sendable(m)
    ensures Bytes(m) == OnWire(FrameOf(m)) && |FrameOf(m).payload| <= MAX_LENGTH && FrameOf(m).header >= 16
    ensures ReadHeader(FrameOf(m).header, |FrameOf(m).payload|) == m.common
  {
    HeaderRoundTrip(m.common);
  }

  /** Part of a packet is no packet. */
  lemma PacketCut(m: Value, received: seq<byte>)
    requires Sendable(m) && received <= Bytes(m) && |received| < |Bytes(m)|
    ensures Decode(received) == Decoded([], received, false) && (received != [] ==> received[0] >= 16)
  {
    var packet := Bytes(m);
    PacketIsFrame(m);
    FirstOnWire(FrameOf(m), []);
    assert packet + [] == packet == received + packet[|received|..];
    FirstFrameAppend(received, packet[|received|..]);
    assert received != [] ==> received[0] == packet[0];
  }

  lemma PacketFirst(m: Value, rest: seq<byte>)
    requires Sendable(m)
    ensures Decode(Bytes(m) + rest) == Cons(FrameOf(m), Decode(rest))
  {
    PacketIsFrame(m);
    FirstOnWire(FrameOf(m), rest);
    assert (Bytes(m) + rest)[|Bytes(m)|..] == rest;
  }

  /** The bytes left over begin with the header of the next message. */
  lemma {:induction false} RestHeader(messages: seq<Value>, received: seq<byte>)
    requires AllSendable(messages) && received <= SendMachine.Concat(Packets(messages)) && Decode(received).rest != []
    ensures Decode(received).rest[0] >= 16
    decreases |messages|
  {
    if messages != [] {
      var first, rest := Bytes(messages[0]), SendMachine.Concat(Packets(messages[1..]));
      assert Packets(messages)[1..] == Packets(messages[1..]);
      assert received <= first + rest;
      if |received| < |first| {
        Cut(first, rest, received);
        PacketCut(messages[0], received);
      } else {
        var more := Past(first, rest, received);
        PacketFirst(messages[0], more);
        RestHeader(messages[1..], more);
      }
    }
  }

  lemma Cut(first: seq<byte>, rest: seq<byte>, received: seq<byte>)
    requires received <= first + rest && |received| <= |first|
    ensures received <= first
  {
    assert received == (first + rest)[..|received|] == first[..|received|];
  }

  lemma Past(first: seq<byte>, rest: seq<byte>, received: seq<byte>) returns (more: seq<byte>)
    requires received <= first + rest && |received| >= |first|
    ensures received == first + more && more <= rest
  {
    more := received[|first|..];
    assert received == (first + rest)[..|received|] == first + more && more == rest[..|more|];
  }

  lemma HeaderFound(s: seq<byte>, h: byte)
    requires !Decode(s).bad && Decode(s).rest == []
    ensures Decode(s + [h]).rest == [h]
  {
    DecodeAppend(s, [h]);
    LengthOpen(h, []);
    assert [h] + [] == [h] && [] + [h] == [h];
  }

  lemma NoZeroAt(messages: seq<Value>, before: seq<byte>, h: byte)
    requires AllSendable(messages) && before + [h] <= SendMachine.Concat(Packets(messages))
    requires !Decode(before).bad && Decode(before).rest == []
    ensures h >= 16
  {
    HeaderFound(before, h);
    RestHeader(messages, before + [h]);
  }

  lemma Beginning(s: seq<byte>, all: seq<byte>, i: nat)
    requires s <= all && i < |s|
    ensures s[..i] + [s[i]] <= all
  {
    assert s[..i] + [s[i]] == s[..i + 1] == all[..i + 1];
  }

  /** No part of a stream of messages shows a type-0 header. */
  lemma NoZeroHeader(messages: seq<Value>, received: seq<byte>, judge: Judge)
    requires AllSendable(messages) && received <= SendMachine.Concat(Packets(messages))
    ensures !ZeroFollowed(received, judge)
  {
    forall i: nat | i + 1 < |received| ensures !ZeroHeaderAt(received, judge, i) {
      Beginning(received, SendMachine.Concat(Packets(messages)), i);
      if !Decode(received[..i]).bad && Decode(received[..i]).rest == [] {
        NoZeroAt(messages, received[..i], received[i]);
      }
    }
  }

  // ---------- which messages have arrived ----------

  /** The bytes of the first n messages. */
  function LengthOf(messages: seq<Value>, n: nat): nat
    requires AllSendable(messages) && n <= |messages|
  {
    |SendMachine.Concat(Packets(messages[..n]))|
  }

  /** k bytes of the stream are all of the first n messages, and not all of one more. */
  predicate Arrived(messages: seq<Value>, k: nat, n: nat)
    requires AllSendable(messages)
  {
    n <= |messages| && LengthOf(messages, n) <= k && (n < |messages| ==> k < LengthOf(messages, n + 1))
  }

  lemma LengthOfCons(messages: seq<Value>, n: nat)
    requires AllSendable(messages) && 0 < n <= |messages|
    ensures LengthOf(messages, n) == |Bytes(messages[0])| + LengthOf(messages[1..], n - 1)
  {
    assert messages[..n][0] == messages[0] && messages[..n][1..] == messages[1..][..n - 1];
    assert Packets(messages[..n])[1..] == Packets(messages[1..][..n - 1]);
  }

  lemma ArrivedCons(messages: seq<Value>, k: nat, n: nat)
    requires AllSendable(messages) && messages != []
    ensures Arrived(messages, k, n) <==>
      if k < |Bytes(messages[0])| then n == 0 else n > 0 && Arrived(messages[1..], k - |Bytes(messages[0])|, n - 1)
  {
    if n <= |messages| {
      assert LengthOf(messages, 0) == 0 by {
        assert messages[..0] == [];
      }
      LengthOfCons(messages, 1);
      assert LengthOf(messages[1..], 0) == 0 by {
        assert messages[1..][..0] == [];
      }
      if n > 0 {
        LengthOfCons(messages, n);
      }
      if n < |messages| {
        LengthOfCons(messages, n + 1);
      }
    }
  }

  /** There is one such number. */
  lemma {:induction false} ArrivedIsOne(messages: seq<Value>, k: nat) returns (n: nat)
    requires AllSendable(messages)
    ensures forall m: nat :: Arrived(messages, k, m) <==> m == n
    decreases |messages|
  {
    if messages == [] {
      n := 0;
      assert messages[..0] == [];
    } else {
      var size := |Bytes(messages[0])|;
      if k < size {
        n := 0;
      } else {
        var after := ArrivedIsOne(messages[1..], k - size);
        n := after + 1;
      }
      forall m: nat ensures Arrived(messages, k, m) <==> m == n {
        ArrivedCons(messages, k, m);
      }
    }
  }

  /** All of the stream is all of the messages. */
  lemma AllArrived(messages: seq<Value>)
    requires AllSendable(messages)
    ensures Arrived(messages, |SendMachine.Concat(Packets(messages))|, |messages|)
  {
    assert messages[..|messages|] == messages;
  }

  lemma TakeCons(messages: seq<Value>, n: nat)
    requires 0 < n <= |messages|
    ensures messages[..n] == [messages[0]] + messages[1..][..n - 1]
  {
  }

  lemma SentFirst(m: Value, rest: seq<Value>)
    requires Sendable(m) && AllSendable(rest)
    ensures AllSendable([m] + rest) && Sent([m] + rest) == [Packet(m.common, Body(m))] + Sent(rest)
  {
  }

  lemma SentCons(messages: seq<Value>, n: nat)
    requires AllSendable(messages) && 0 < n <= |messages|
    ensures Sent(messages[..n]) == [Packet(messages[0].common, Body(messages[0]))] + Sent(messages[1..][..n - 1])
  {
    TakeCons(messages, n);
    SentFirst(messages[0], messages[1..][..n - 1]);
  }

  lemma PacketsOfCons(f: Frame, frames: seq<Frame>)
    ensures PacketsOf([f] + frames) == [Packet(ReadHeader(f.header, |f.payload|), f.payload)] + PacketsOf(frames)
  {
  }

  /** A beginning of the stream is decoded to exactly the messages of which all bytes are there. */
  lemma {:induction false} DecodedAreArrived(messages: seq<Value>, received: seq<byte>, n: nat)
    requires AllSendable(messages) && received <= SendMachine.Concat(Packets(messages)) && Arrived(messages, |received|, n)
    ensures !Decode(received).bad && PacketsOf(Decode(received).frames) == Sent(messages[..n])
    decreases |messages|
  {
    if messages == [] {
      assert received == [] && messages[..n] == [];
    } else {
      var first, rest := Bytes(messages[0]), SendMachine.Concat(Packets(messages[1..]));
      assert Packets(messages)[1..] == Packets(messages[1..]);
      ArrivedCons(messages, |received|, n);
      if |received| < |first| {
        Cut(first, rest, received);
        PacketCut(messages[0], received);
        assert messages[..n] == [];
      } else {
        var more := Past(first, rest, received);
        PacketFirst(messages[0], more);
        DecodedAreArrived(messages[1..], more, n - 1);
        PacketIsFrame(messages[0]);
        PacketsOfCons(FrameOf(messages[0]), Decode(more).frames);
        SentCons(messages, n);
      }
    }
  }

  // ---------- end to end ----------

  /** Whatever was accepted by send and received, cut and timed in whatever way: the receiver's parser has been given
      exactly the messages of which all bytes were received, in their order, header and body untouched; or the first
      of them that was refused was the last one. */
  lemma EndToEnd(messages: seq<Value>, sender: SendMachine.State, script: seq<Event>, judge: Judge, n: nat)
    requires AllSendable(messages) && SendMachine.Inv(sender) && sender.offered == SendMachine.Concat(Packets(messages))
    requires BytesOf(script) <= sender.accepted && Arrived(messages, |BytesOf(script)|, n)
    ensures var s, arrived := Serve(script, judge), Sent(messages[..n]);
      if AllAccepted(arrived, judge) then s.Kept? && s.packets == arrived
      else s.Dropped? && FirstRefused(arrived, judge, s.packets)
  {
    var s := BytesOf(script);
    assert sender.accepted <= sender.accepted + SendMachine.Rest(sender.cur) <= sender.offered;
    NoZeroHeader(messages, s, judge);
    CutAsUncut(script, s, judge);
    ServeJudged(Uncut(s), judge);
    UncutIsDecode(s);
    DecodedAreArrived(messages, s, n);
  }

  /** When all that was offered has been accepted and received, every message has arrived. */
  lemma AllDelivered(messages: seq<Value>, sender: SendMachine.State, script: seq<Event>, judge: Judge)
    requires AllSendable(messages) && SendMachine.Inv(sender) && sender.offered == SendMachine.Concat(Packets(messages))
    requires sender.queue == [] && sender.cur.NoPacket? && BytesOf(script) == sender.accepted
    requires AllAccepted(Sent(messages), judge)
    ensures Serve(script, judge).Kept? && Serve(script, judge).packets == Sent(messages)
  {
    assert sender.accepted == sender.offered by {
      assert sender.accepted + [] + [] == sender.accepted;
    }
    AllArrived(messages);
    EndToEnd(messages, sender, script, judge, |messages|);
    assert messages[..|messages|] == messages;
  }

  /** A connection that has not been given up has handed on exactly the messages of which all bytes were received. */
  lemma ReceivedInOrder(messages: seq<Value>, sender: SendMachine.State, receiver: Connection, n: nat)
    requires AllSendable(messages) && SendMachine.Inv(sender) && sender.offered == SendMachine.Concat(Packets(messages))
    requires receiver.Valid() && BytesOf(receiver.script) <= sender.accepted && Arrived(messages, |BytesOf(receiver.script)|, n)
    ensures receiver.packets == Sent(messages[..n])
  {
    EndToEnd(messages, sender, receiver.script, JudgeOf(receiver.outside), n);
  }

  /** What was published comes out of a packet. */
  predicate GivesBack(p: Packet, topic: seq<byte>, payload: seq<byte>, beyond: byte)
  {
    var o := Parse(Received(p.c), p.data, beyond);
    o.rc == Done && o.c.m.publish.topicName == topic && o.c.m.publish.content == payload
  }

  /** A message of publish_msg of which all bytes were received has been handed on at its place, and gives topic and
      payload back exactly if these survive the codec: the topic's length is a good one and the payload has two bytes. */
  lemma PostRoundTrip(messages: seq<Value>, sender: SendMachine.State, receiver: Connection, n: nat, i: nat,
                      topic: seq<byte>, payload: seq<byte>, beyond: byte)
    requires AllSendable(messages) && SendMachine.Inv(sender) && sender.offered == SendMachine.Concat(Packets(messages))
    requires receiver.Valid() && BytesOf(receiver.script) <= sender.accepted && Arrived(messages, |BytesOf(receiver.script)|, n)
    requires i < n && messages[i] == PublishMessageOf(topic, payload) && |topic| <= 65535
    ensures |receiver.packets| == n
    ensures GivesBack(receiver.packets[i], topic, payload, beyond) <==> GoodLength(|topic|) && |payload| >= 2
  {
    ReceivedInOrder(messages, sender, receiver, n);
    BodySizeExact(messages[i]);
    assert messages[..n][i] == messages[i];
    PublishRoundTrip(topic, payload, beyond);
  }
}
