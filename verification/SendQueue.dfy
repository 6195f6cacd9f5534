/** The outgoing queue in the heap: publish_msg and ack_msg link packets behind its tail, the drain loop of loop_run
    pops them and writes them out in parts. */
module SendQueue {
  import opened Seqs
  import opened Wire
  import opened Messages
  import opened SendMachine
  import opened RoundTrip

  class Packet {
    const sendBuf: seq<byte>
    var wcur: nat
    const wlen: nat
    var next: Packet?
    ghost const stamp: nat   // counts the packets of a queue, so that no two are the same

    constructor (sendBuf: seq<byte>, ghost stamp: nat)
      ensures this.sendBuf == sendBuf && wlen == |sendBuf| && wcur == 0 && next == null && this.stamp == stamp
    {
      this.sendBuf, wlen, wcur, next := sendBuf, |sendBuf|, 0, null;
      this.stamp := stamp;
    }
  }

  /** What send may answer for a request; its failures are taken to be told apart from byte counts. */
  datatype Sent = Took(n: nat) | Blocks | Fails

  method Send(want: nat) returns (r: Sent)
    ensures r.Took? ==> 1 <= r.n <= want
  {
    var n: int := *;
    if 1 <= n <= want {
      return Took(n);
    }
    var blocks: bool := *;
    r := if blocks then Blocks else Fails;
  }

  /** What send took over these answers. */
  function Total(answers: seq<Sent>): nat
  {
    if answers == [] then 0
    else
      var last := answers[|answers| - 1];
      Total(answers[..|answers| - 1]) + if last.Took? then last.n else 0
  }

  /** send took something each time. */
  predicate AllTook(answers: seq<Sent>) { forall i | 0 <= i < |answers| :: answers[i].Took? }

  /** How writing out ends with these answers of send: through, if it took something each time; or left at the last of
      them, the first that took nothing, and failed exactly if that was no block. */
  predicate WriteEnds(answers: seq<Sent>, skip: bool, failed: bool)
  {
    if !skip then AllTook(answers) && !failed
    else
      && answers != [] && AllTook(answers[..|answers| - 1])
      && answers[|answers| - 1] == if failed then Fails else Blocks
  }

  /** How far sending has come: the packets still to be sent, the one in hand first; whether there is one in hand, and how
      much of it has been sent; all that send took from this connection; and the counter. */
  datatype Progress = Progress(line: seq<seq<byte>>, inHand: bool, wcur: nat, accepted: seq<byte>, num: int)

  /** The first packet of the line, in hand, is written, with these answers of send. Through, it leaves the line; blocked,
      it stays in hand, written as far as send took it; at a failure it goes with the connection. */
  ghost predicate Writes(p: Progress, p': Progress, skip: bool, failed: bool, answers: seq<Sent>)
  {
    && WriteEnds(answers, skip, failed) && p.line != [] && p.wcur + Total(answers) <= |p.line[0]|
    && var bytes := p.line[0];
    && var v := p.wcur + Total(answers);
    && (skip <==> v < |bytes|)
    && p' == if failed then Progress(p.line[1..], false, 0, [], 0)
             else if skip then p.(inHand := true, wcur := v, accepted := p.accepted + bytes[p.wcur..v])
             else p.(line := p.line[1..], inHand := false, wcur := 0, accepted := p.accepted + bytes[p.wcur..])
  }

  /** A round: the packet is counted off and written, while others are added behind. */
  ghost predicate RoundOf(p: Progress, p': Progress, skip: bool, failed: bool, added: seq<seq<byte>>, answers: seq<Sent>)
  {
    p.line != [] && Writes(p.(line := p.line + added, inHand := true, num := p.num - 1 + |added|), p', skip, failed, answers)
  }

  /** Of the packet in hand as much has been accepted as send took in these answers, and else nothing has changed. */
  ghost predicate Wrote(p: Progress, q: Progress, answers: seq<Sent>)
  {
    && p.inHand && p.line != [] && p.wcur + Total(answers) <= |p.line[0]|
    && var v := p.wcur + Total(answers);
    && q == p.(wcur := v, accepted := p.accepted + p.line[0][p.wcur..v])
  }

  /** send has taken n bytes more of the packet in hand. */
  ghost function More(p: Progress, bytes: seq<byte>, n: nat): Progress
    requires p.wcur + n <= |bytes|
  {
    p.(wcur := p.wcur + n, accepted := p.accepted + bytes[p.wcur..p.wcur + n])
  }

  lemma WroteMore(p: Progress, q: Progress, answers: seq<Sent>, r: Sent)
    requires Wrote(p, q, answers) && AllTook(answers) && (r.Took? ==> q.wcur + r.n <= |p.line[0]|)
    ensures !r.Took? ==> Wrote(p, q, answers + [r]) && WriteEnds(answers + [r], true, r.Fails?)
    ensures r.Took? ==> Wrote(p, More(q, p.line[0], r.n), answers + [r]) && WriteEnds(answers + [r], false, false)
  {
    assert (answers + [r])[..|answers|] == answers;
    if r.Took? {
      Further(p.accepted, p.line[0], p.wcur, q.wcur, q.wcur + r.n);
    }
  }

  /** What comes of the packet in hand then. */
  ghost predicate Left(p: Progress, p': Progress, skip: bool, failed: bool)
  {
    && p.line != []
    && p' == if failed then Progress(p.line[1..], false, 0, [], 0)
             else if skip then p else p.(line := p.line[1..], inHand := false, wcur := 0)
  }

  lemma WritesIs(p: Progress, q: Progress, p': Progress, skip: bool, failed: bool, answers: seq<Sent>)
    requires WriteEnds(answers, skip, failed)
    requires Wrote(p, q, answers) && (skip <==> q.wcur < |p.line[0]|) && Left(q, p', skip, failed)
    ensures Writes(p, p', skip, failed, answers)
  {
  }

  lemma RoundIs(p: Progress, q: Progress, p': Progress, skip: bool, failed: bool, added: seq<seq<byte>>, answers: seq<Sent>)
    requires p.line != [] && q == p.(line := p.line + added, inHand := true, num := p.num - 1 + |added|)
    requires Writes(q, p', skip, failed, answers)
    ensures RoundOf(p, p', skip, failed, added, answers)
  {
  }

  /** The bytes of the first n packets of the line, behind the w that had been sent of the first one. */
  ghost function Ahead(line: seq<seq<byte>>, w: nat, n: nat): seq<byte>
    requires n <= |line|
  {
    var bytes := Concat(line[..n]);
    if w <= |bytes| then bytes[w..] else []
  }

  /** After sent whole rounds: as many packets have left the front of the line and the counter, all their bytes have been
      accepted, and what was added stands behind. */
  ghost predicate SentAll(p: Progress, p': Progress, sent: nat, added: seq<seq<byte>>, answers: seq<Sent>)
  {
    && sent <= |p.line| && AllTook(answers) && Total(answers) == |Ahead(p.line, p.wcur, sent)|
    && p' == Progress(p.line[sent..] + added, sent == 0 && p.inHand, if sent == 0 then p.wcur else 0,
                      p.accepted + Ahead(p.line, p.wcur, sent), p.num - sent + |added|)
  }

  /** After that, blocked: the next packet has been counted off too, and is in hand, written as far as send took it. */
  ghost predicate Stuck(p: Progress, p': Progress, sent: nat, added: seq<seq<byte>>, answers: seq<Sent>)
  {
    && sent < |p.line| && |Ahead(p.line, p.wcur, sent)| <= Total(answers) && WriteEnds(answers, true, false)
    && var w := if sent == 0 then p.wcur else 0;
    && var v := w + Total(answers) - |Ahead(p.line, p.wcur, sent)|;
    && v < |p.line[sent]|
    && p' == Progress(p.line[sent..] + added, true, v,
                      p.accepted + Ahead(p.line, p.wcur, sent) + p.line[sent][w..v], p.num - sent - 1 + |added|)
  }

  /** Or failed: the packet in hand is gone with the connection, and the others stay queued. */
  ghost predicate Broken(p: Progress, p': Progress, sent: nat, added: seq<seq<byte>>)
  {
    sent < |p.line| && p' == Progress(p.line[sent + 1..] + added, false, 0, [], 0)
  }

  /** How a drain stands that has been left or not. */
  ghost predicate Drained(p: Progress, p': Progress, skip: bool, failed: bool, sent: nat, added: seq<seq<byte>>, answers: seq<Sent>)
  {
    && WriteEnds(answers, skip, failed)
    && if failed then Broken(p, p', sent, added)
       else if skip then Stuck(p, p', sent, added, answers) else SentAll(p, p', sent, added, answers)
  }

  /** A drain, as the answers of send have it: the client is removed exactly if one of them is a failure; at a block the
      packet stays in hand; and if send takes something each time, all packets counted when it began are sent. */
  ghost predicate DrainOf(p: Progress, p': Progress, cleaned: bool, sent: nat, added: seq<seq<byte>>, answers: seq<Sent>)
  {
    && (cleaned <==> Fails in answers)
    && if cleaned then Broken(p, p', sent, added)
       else if Blocks in answers then Stuck(p, p', sent, added, answers)
       else sent == p.num && SentAll(p, p', sent, added, answers)
  }

  lemma DrainEnds(p: Progress, p': Progress, skip: bool, cleaned: bool, sent: nat, added: seq<seq<byte>>, answers: seq<Sent>)
    requires Drained(p, p', skip, cleaned, sent, added, answers) && (!skip ==> sent == p.num)
    ensures DrainOf(p, p', cleaned, sent, added, answers)
  {
    if skip {
      var last := |answers| - 1;
      assert answers == answers[..last] + [answers[last]];
    }
  }

  lemma {:induction false} TotalAppend(a: seq<Sent>, b: seq<Sent>)
    ensures Total(a + b) == Total(a) + Total(b)
    decreases |b|
  {
    if b == [] {
      assert a + b == a;
    } else {
      var last := |b| - 1;
      assert (a + b)[..|a + b| - 1] == a + b[..last];
      TotalAppend(a, b[..last]);
    }
  }

  lemma EndsAppend(a: seq<Sent>, b: seq<Sent>, skip: bool, failed: bool)
    requires AllTook(a) && WriteEnds(b, skip, failed)
    ensures WriteEnds(a + b, skip, failed)
  {
    if skip {
      assert (a + b)[..|a + b| - 1] == a + b[..|b| - 1];
    }
  }

  lemma {:induction false} FirstIsThere(line: seq<seq<byte>>, n: nat)
    requires 0 < n <= |line|
    ensures |line[0]| <= |Concat(line[..n])|
    decreases n
  {
    assert line[..n] == line[..n - 1] + [line[n - 1]];
    ConcatAppend(line[..n - 1], line[n - 1]);
    if n > 1 {
      FirstIsThere(line, n - 1);
    } else {
      assert line[..0] == [];
    }
  }

  lemma AheadNext(line: seq<seq<byte>>, w: nat, n: nat)
    requires n < |line| && w <= |line[0]|
    ensures Ahead(line, w, n + 1) == Ahead(line, w, n) + line[n][if n == 0 then w else 0..]
  {
    assert line[..n + 1] == line[..n] + [line[n]];
    ConcatAppend(line[..n], line[n]);
    if n > 0 {
      FirstIsThere(line, n);
    } else {
      assert line[..0] == [];
    }
  }

  /** The line after sent rounds, and what a round makes of it. */
  lemma LineNext(line: seq<seq<byte>>, n: nat, added: seq<seq<byte>>, more: seq<seq<byte>>)
    requires n < |line|
    ensures line[n..] + added != [] && (line[n..] + added)[0] == line[n]
    ensures (line[n..] + added) + more == line[n..] + (added + more)
    ensures (line[n..] + added + more)[1..] == line[n + 1..] + (added + more)
  {
  }

  lemma SentNext(p: Progress, q: Progress, p': Progress, sent: nat, added: seq<seq<byte>>, answers: seq<Sent>,
                 more: seq<seq<byte>>, last: seq<Sent>)
    requires SentAll(p, q, sent, added, answers) && sent < |p.line| && p.wcur <= |p.line[0]|
    requires RoundOf(q, p', false, false, more, last)
    ensures SentAll(p, p', sent + 1, added + more, answers + last)
  {
    LineNext(p.line, sent, added, more);
    TotalAppend(answers, last);
    AheadNext(p.line, p.wcur, sent);
    Assoc(p.accepted, Ahead(p.line, p.wcur, sent), p.line[sent][if sent == 0 then p.wcur else 0..]);
  }

  lemma BrokenNext(p: Progress, q: Progress, p': Progress, sent: nat, added: seq<seq<byte>>, answers: seq<Sent>,
                   more: seq<seq<byte>>, last: seq<Sent>)
    requires SentAll(p, q, sent, added, answers) && sent < |p.line| && RoundOf(q, p', true, true, more, last)
    ensures Broken(p, p', sent, added + more)
  {
    LineNext(p.line, sent, added, more);
  }

  lemma StuckNext(p: Progress, q: Progress, p': Progress, sent: nat, added: seq<seq<byte>>, answers: seq<Sent>,
                  more: seq<seq<byte>>, last: seq<Sent>)
    requires SentAll(p, q, sent, added, answers) && sent < |p.line| && p.wcur <= |p.line[0]|
    requires RoundOf(q, p', true, false, more, last)
    ensures Stuck(p, p', sent, added + more, answers + last)
  {
    LineNext(p.line, sent, added, more);
    TotalAppend(answers, last);
    EndsAppend(answers, last, true, false);
  }

  lemma DrainNext(p: Progress, q: Progress, p': Progress, sent: nat, added: seq<seq<byte>>, answers: seq<Sent>,
                  skip: bool, failed: bool, more: seq<seq<byte>>, last: seq<Sent>)
    requires SentAll(p, q, sent, added, answers) && sent < |p.line| && p.wcur <= |p.line[0]|
    requires RoundOf(q, p', skip, failed, more, last)
    ensures if skip then DrainOf(p, p', failed, sent, added + more, answers + last)
            else !failed && SentAll(p, p', sent + 1, added + more, answers + last)
  {
    if failed {
      BrokenNext(p, q, p', sent, added, answers, more, last);
    } else if skip {
      StuckNext(p, q, p', sent, added, answers, more, last);
    } else {
      SentNext(p, q, p', sent, added, answers, more, last);
    }
    EndsAppend(answers, last, skip, failed);
    if skip {
      DrainEnds(p, p', skip, failed, sent, added + more, answers + last);
    }
  }

  class Client {
    var sendingPacket: Packet?
    var sendingPacketTail: Packet?
    var sendingCurPacket: Packet?
    var numSendingPack: int
    var lastMid: nat
    ghost var packets: seq<Packet>
    ghost var stamps: nat
    ghost var repr: set<Packet>
    ghost var offered: seq<byte>
    ghost var accepted: seq<byte>

    // ---------- the invariant ----------

    ghost predicate LinkOk(i: nat)
      requires i < |packets|
      reads this`packets, this`stamps, packets
    {
      && packets[i].next == (if i + 1 < |packets| then packets[i + 1] else null)
      && packets[i].stamp < stamps && packets[i].wcur == 0 && packets[i].wlen == |packets[i].sendBuf|
      && (i + 1 < |packets| ==> packets[i].stamp < packets[i + 1].stamp)
    }

    ghost predicate Linked()
      reads this`packets, this`stamps, this`sendingPacket, this`sendingPacketTail, packets
    {
      && sendingPacket == (if packets == [] then null else packets[0])
      && sendingPacketTail == (if packets == [] then null else packets[|packets| - 1])
      && forall i: nat | i < |packets| :: LinkOk(i)
    }

    ghost predicate CurOk()
      reads this`sendingCurPacket, this`stamps, sendingCurPacket
    {
      sendingCurPacket != null ==>
        && sendingCurPacket.wcur <= sendingCurPacket.wlen == |sendingCurPacket.sendBuf|
        && sendingCurPacket.stamp < stamps
    }

    /** The packet in hand was taken off before those in the queue. */
    ghost predicate CurFirst()
      reads this`packets, this`sendingCurPacket
    {
      sendingCurPacket != null && packets != [] ==> sendingCurPacket.stamp < packets[0].stamp
    }

    ghost predicate Valid()
      reads this, packets, sendingCurPacket
    {
      && Linked() && CurOk() && CurFirst()
      && 0 <= numSendingPack <= |packets|
      && (forall i | 0 <= i < |packets| :: packets[i] in repr)
      && (sendingCurPacket != null ==> sendingCurPacket in repr)
      && offered == accepted + Rest(Cur()) + Concat(Queue())
    }

    ghost function Queue(): (q: seq<seq<byte>>)
      reads this`packets
      ensures |q| == |packets|
    {
      Buffers(packets)
    }

    ghost function Cur(): Current
      reads this`sendingCurPacket, sendingCurPacket
    {
      if sendingCurPacket == null then NoPacket else Sending(sendingCurPacket.sendBuf, sendingCurPacket.wcur)
    }

    /** The packets still to be sent: the one in hand and those in the queue. */
    ghost function Line(): seq<seq<byte>>
      reads this`packets, this`sendingCurPacket
    {
      (if sendingCurPacket == null then [] else [sendingCurPacket.sendBuf]) + Queue()
    }

    ghost function Now(): Progress
      reads this, sendingCurPacket
    {
      Progress(Line(), sendingCurPacket != null, if sendingCurPacket == null then 0 else sendingCurPacket.wcur, accepted, numSendingPack)
    }

    constructor ()
      ensures Valid() && packets == [] && sendingCurPacket == null && offered == [] && accepted == [] && repr == {}
    {
      sendingPacket, sendingPacketTail, sendingCurPacket, numSendingPack, lastMid := null, null, null, 0, 0;
      packets, stamps, repr, offered, accepted := [], 0, {}, [], [];
    }

    lemma Distinct(i: nat, j: nat)
      requires Linked() && i < j < |packets|
      ensures packets[i].stamp < packets[j].stamp
      decreases j
    {
      assert LinkOk(j - 1);
      if i < j - 1 {
        Distinct(i, j - 1);
      }
    }

    // ---------- producers ----------

    /** The pointer writes of an append. */
    method WriteTail(newPacket: Packet)
      requires newPacket !in packets && (sendingPacketTail != null <==> packets != [])
      requires packets != [] ==> sendingPacketTail == packets[|packets| - 1]
      requires forall i: nat | i < |packets| - 1 :: packets[i] != packets[|packets| - 1]
      modifies this`sendingPacket, this`sendingPacketTail, this`packets, packets`next
      ensures packets == old(packets) + [newPacket] && sendingPacketTail == newPacket
      ensures sendingPacket == if old(packets) == [] then newPacket else old(sendingPacket)
      ensures forall i: nat | i < |old(packets)| - 1 :: packets[i].next == old(packets[i].next)
      ensures old(packets) != [] ==> packets[|old(packets)| - 1].next == newPacket
    {
      if sendingPacketTail != null {
        sendingPacketTail.next := newPacket;
      } else {
        sendingPacket := newPacket;
      }
      sendingPacketTail := newPacket;
      packets := packets + [newPacket];
    }

    /** The list with one packet more. */
    method LinkPacket(newPacket: Packet)
      requires Linked() && newPacket !in packets && newPacket.next == null && newPacket.wcur == 0
      requires newPacket.wlen == |newPacket.sendBuf| && newPacket.stamp == stamps
      modifies this`sendingPacket, this`sendingPacketTail, this`packets, this`stamps, packets`next
      ensures Linked() && packets == old(packets) + [newPacket] && stamps == old(stamps) + 1
    {
      LastIsAlone();
      WriteTail(newPacket);
      stamps := stamps + 1;
      forall i: nat | i < |packets| ensures LinkOk(i) {
        assert i < |old(packets)| ==> old(LinkOk(i));
      }
    }

    lemma LastIsAlone()
      requires Linked()
      ensures forall i: nat | i < |packets| - 1 :: packets[i] != packets[|packets| - 1]
      ensures packets != [] ==> LinkOk(|packets| - 1) && packets[0].stamp < stamps
    {
      forall i: nat | i < |packets| - 1 ensures packets[i] != packets[|packets| - 1] {
        Distinct(i, |packets| - 1);
      }
      if packets != [] {
        assert LinkOk(0) && LinkOk(|packets| - 1);
      }
    }

    /** The append under sending_lock (broker/hand_mqtt.c:49-57, 94-102). */
    method Append(newPacket: Packet)
      requires Valid() && newPacket !in packets && newPacket != sendingCurPacket
      requires newPacket.next == null && newPacket.wcur == 0 && newPacket.wlen == |newPacket.sendBuf|
      requires newPacket.stamp == stamps
      modifies this`sendingPacket, this`sendingPacketTail, this`numSendingPack, this`packets, this`stamps, this`repr,
               this`offered, packets`next
      ensures Valid() && packets == old(packets) + [newPacket] && repr == old(repr) + {newPacket}
      ensures numSendingPack == old(numSendingPack) + 1
      ensures offered == old(offered) + newPacket.sendBuf
    {
      AppendFacts(newPacket);
      offered, repr := offered + newPacket.sendBuf, repr + {newPacket};
      LinkPacket(newPacket);
      numSendingPack := numSendingPack + 1;
    }

    lemma AppendFacts(newPacket: Packet)
      requires Valid() && newPacket.stamp == stamps
      ensures forall i: nat | i < |packets| - 1 :: packets[i] != packets[|packets| - 1]
      ensures packets != [] ==> LinkOk(|packets| - 1) && packets[0].stamp < stamps
      ensures sendingCurPacket != null ==> sendingCurPacket !in packets
      ensures Concat(Buffers(packets + [newPacket])) == Concat(Queue()) + newPacket.sendBuf
      ensures accepted + Rest(Cur()) + (Concat(Queue()) + newPacket.sendBuf) == offered + newPacket.sendBuf
    {
      LastIsAlone();
      forall i: nat | i < |packets| && sendingCurPacket != null ensures packets[i] != sendingCurPacket {
        if i > 0 {
          Distinct(0, i);
        }
      }
      BuffersAppend(packets, newPacket);
      ConcatAppend(Queue(), newPacket.sendBuf);
    }

    /** A new packet with the message's bytes, linked last: what publish_msg and ack_msg both end with. */
    method Enqueue(out: Message)
      requires Valid() && Writable(out.Get()) && out.common.length <= MAX_LENGTH
      modifies this`sendingPacket, this`sendingPacketTail, this`numSendingPack, this`packets, this`stamps, this`repr,
               this`offered, packets`next
      ensures Valid() && Queue() == old(Queue()) + [old(Bytes(out.Get()))]
      ensures numSendingPack == old(numSendingPack) + 1 && old(packets) <= packets && fresh(repr - old(repr))
      ensures offered == old(offered) + old(Bytes(out.Get()))
    {
      var buffer := Serialise(out);
      var newPacket := new Packet(buffer, stamps);
      BuffersAppend(packets, newPacket);
      Append(newPacket);
    }

    /** publish_msg. */
    method PublishMsg(topic: seq<byte>, payload: seq<byte>)
      requires Valid() && 2 + |topic| + |payload| <= MAX_LENGTH
      modifies this`sendingPacket, this`sendingPacketTail, this`numSendingPack, this`packets, this`stamps, this`repr,
               this`offered, packets`next
      ensures Valid() && Queue() == old(Queue()) + [Bytes(PublishMessageOf(topic, payload))]
      ensures numSendingPack == old(numSendingPack) + 1 && old(packets) <= packets && fresh(repr - old(repr))
      ensures offered == old(offered) + Bytes(PublishMessageOf(topic, payload))
    {
      var out := new Message();
      out.common := Common(false, 0, false, PUBLISH, 2 + |topic| + |payload|);
      out.publish := Publish(topic, 0, payload);
      Enqueue(out);
    }

    /** ack_msg: a CONNACK, SUBACK or PINGRESP; nothing for any other kind. */
    method AckMsg(kind: nat, payloadLength: nat, retCode: byte)
      requires Valid() && payloadLength <= MAX_LENGTH
      modifies this`sendingPacket, this`sendingPacketTail, this`numSendingPack, this`packets, this`stamps, this`repr,
               this`offered, packets`next
      ensures Valid() && fresh(repr - old(repr))
      ensures kind in {CONNACK, SUBACK, PINGRESP} ==>
                && Queue() == old(Queue()) + [Bytes(AckOf(kind, payloadLength, retCode, lastMid))]
                && numSendingPack == old(numSendingPack) + 1
      ensures kind !in {CONNACK, SUBACK, PINGRESP} ==> packets == old(packets) && numSendingPack == old(numSendingPack)
    {
      var out := AckMessage(kind, payloadLength, retCode, lastMid);
      if out != null {
        Enqueue(out);
      }
    }

    static method AckMessage(kind: nat, payloadLength: nat, retCode: byte, mid: nat) returns (out: Message?)
      ensures out != null <==> kind in {CONNACK, SUBACK, PINGRESP}
      ensures out != null ==> fresh(out) && out.Get() == AckOf(kind, payloadLength, retCode, mid)
    {
      out := new Message();
      if kind == CONNACK {
        out.common := Common(false, 0, false, CONNACK, payloadLength);
        out.connack := Connack(0, retCode);
      } else if kind == SUBACK {
        out.common := Common(false, 0, false, SUBACK, payloadLength);
        out.suback := Suback(mid, retCode);
      } else if kind == PINGRESP {
        out.common := Common(false, 0, false, PINGRESP, payloadLength);
      } else {
        return null;
      }
    }

    // ---------- the drain loop ----------

    /** Any producer's packet. */
    method Produce() returns (ghost buffer: seq<byte>)
      requires Valid()
      modifies this`sendingPacket, this`sendingPacketTail, this`numSendingPack, this`packets, this`stamps, this`repr,
               this`offered, packets`next
      ensures Valid() && fresh(repr - old(repr)) && old(offered) <= offered
      ensures Queue() == old(Queue()) + [buffer] && numSendingPack == old(numSendingPack) + 1
    {
      var bytes: seq<byte> := *;
      var newPacket := new Packet(bytes, stamps);
      BuffersAppend(packets, newPacket);
      Append(newPacket);
      buffer := bytes;
    }

    /** Any producers, between two regions of the drain loop that hold the lock: they only enqueue. */
    method Producers() returns (ghost added: seq<seq<byte>>)
      requires Valid()
      modifies this`sendingPacket, this`sendingPacketTail, this`numSendingPack, this`packets, this`stamps, this`repr,
               this`offered, repr`next
      ensures Valid() && fresh(repr - old(repr))
      ensures Queue() == old(Queue()) + added && old(offered) <= offered
      ensures Now() == old(Now()).(line := old(Line()) + added, num := old(numSendingPack) + |added|)
    {
      var more: bool := *;
      var count: nat := 0;
      var limit: int := *;
      added := [];
      while more && count < limit
        invariant Valid() && fresh(repr - old(repr))
        invariant Queue() == old(Queue()) + added && numSendingPack == old(numSendingPack) + |added|
        invariant old(offered) <= offered
        decreases limit - count
      {
        ghost var buffer := Produce();
        added := added + [buffer];
        more := *;
        count := count + 1;
      }
      Assoc(if sendingCurPacket == null then [] else [sendingCurPacket.sendBuf], old(Queue()), added);
    }

    /** The first packet leaves the list. */
    method TakeFirst() returns (first: Packet)
      requires Linked() && packets != []
      modifies this`sendingPacket, this`sendingPacketTail, this`packets
      ensures Linked() && packets == old(packets)[1..] && first == old(packets)[0]
      ensures packets != [] ==> first.stamp < packets[0].stamp
    {
      assert LinkOk(0);
      first := sendingPacket;
      sendingPacket := sendingPacket.next;
      if sendingPacket == null {
        sendingPacketTail := null;
      }
      packets := packets[1..];
      forall i: nat | i < |packets| ensures LinkOk(i) {
        assert old(LinkOk(i + 1));
      }
    }

    /** Take the next packet in hand, unless one is there already, and count it off (broker/event_io.c:308-317). */
    method Pop()
      requires Valid() && numSendingPack >= 1
      modifies this`sendingPacket, this`sendingPacketTail, this`sendingCurPacket, this`numSendingPack, this`packets
      ensures Valid() && sendingCurPacket != null && numSendingPack == old(numSendingPack) - 1
      ensures packets == if old(sendingCurPacket) == null then old(packets)[1..] else old(packets)
      ensures sendingCurPacket == if old(sendingCurPacket) == null then old(packets)[0] else old(sendingCurPacket)
    {
      if sendingPacket != null && sendingCurPacket == null {
        PopFacts();
        sendingCurPacket := TakeFirst();
      }
      numSendingPack := numSendingPack - 1;
    }

    lemma PopFacts()
      requires Linked() && packets != []
      ensures LinkOk(0) && Concat(Queue()) == packets[0].sendBuf + Concat(Buffers(packets[1..]))
      ensures packets[0].sendBuf[0..] == packets[0].sendBuf
      ensures accepted + packets[0].sendBuf + Concat(Buffers(packets[1..])) == accepted + [] + Concat(Queue())
    {
      assert LinkOk(0);
      assert Buffers(packets)[1..] == Buffers(packets[1..]);
    }

    /** The line stays what it is. */
    method PopLine()
      requires Valid() && numSendingPack >= 1
      modifies this`sendingPacket, this`sendingPacketTail, this`sendingCurPacket, this`numSendingPack, this`packets
      ensures Valid() && sendingCurPacket != null && old(Line()) != []
      ensures Now() == old(Now()).(inHand := true, num := old(numSendingPack) - 1)
    {
      if sendingCurPacket == null {
        assert LinkOk(0);
        assert Line() == [packets[0].sendBuf] + Buffers(packets[1..]);
      }
      Pop();
    }

    /** One answer of send moves wcur on (broker/event_io.c:338). */
    method Advance(n: nat)
      requires Valid() && sendingCurPacket != null && n <= sendingCurPacket.wlen - sendingCurPacket.wcur
      modifies this`accepted, sendingCurPacket`wcur
      ensures Valid() && Now() == More(old(Now()), sendingCurPacket.sendBuf, n)
    {
      CurNotQueued();
      ghost var c := sendingCurPacket;
      ghost var w := c.wcur;
      Onward(accepted, c.sendBuf, w, n);
      accepted := accepted + c.sendBuf[w..w + n];
      sendingCurPacket.wcur := sendingCurPacket.wcur + n;
      assert Rest(Cur()) == c.sendBuf[w + n..];
    }

    lemma CurNotQueued()
      requires Valid()
      ensures sendingCurPacket != null ==> sendingCurPacket !in packets
    {
      forall i: nat | i < |packets| && sendingCurPacket != null ensures packets[i] != sendingCurPacket {
        if i > 0 {
          Distinct(0, i);
        }
      }
    }

    /** One request of the inner loop. */
    method WriteSome(ghost p: Progress, ghost answers: seq<Sent>) returns (skip: bool, failed: bool, ghost answers': seq<Sent>)
      requires Valid() && sendingCurPacket != null && sendingCurPacket.wcur < sendingCurPacket.wlen
      requires Wrote(p, Now(), answers) && AllTook(answers)
      modifies this`accepted, sendingCurPacket`wcur
      ensures Valid() && Wrote(p, Now(), answers') && WriteEnds(answers', skip, failed)
      ensures if skip then sendingCurPacket.wcur < sendingCurPacket.wlen
              else sendingCurPacket.wcur > old(sendingCurPacket.wcur)
    {
      var r := Send(sendingCurPacket.wlen - sendingCurPacket.wcur);
      answers' := answers + [r];
      HandIsFirst();
      WroteMore(p, Now(), answers, r);
      if !r.Took? {
        return true, r.Fails?, answers';
      }
      Advance(r.n);
      return false, false, answers';
    }

    /** The inner loop (broker/event_io.c:319-339): write until the packet is through or send gives none. The packet stays
        in hand, and its wcur has moved on from where it is at p by what send took. */
    method WriteOut(ghost p: Progress) returns (skip: bool, failed: bool, ghost answers: seq<Sent>)
      requires Valid() && Wrote(p, Now(), []) && sendingCurPacket != null
      modifies this`accepted, sendingCurPacket`wcur
      ensures Valid() && Wrote(p, Now(), answers) && WriteEnds(answers, skip, failed)
      ensures (skip <==> Now().wcur < |sendingCurPacket.sendBuf|) && repr == old(repr) && offered == old(offered)
    {
      skip, failed, answers := false, false, [];
      while sendingCurPacket.wcur < sendingCurPacket.wlen
        invariant Valid() && Wrote(p, Now(), answers) && AllTook(answers) && !skip && !failed
        decreases sendingCurPacket.wlen - sendingCurPacket.wcur
      {
        skip, failed, answers := WriteSome(p, answers);
        if skip {
          return;
        }
      }
    }

    /** The writes of clean_context that concern sending. */
    method WriteClean()
      modifies this`numSendingPack, this`sendingCurPacket, this`offered, this`accepted, this`lastMid
      ensures sendingCurPacket == null && numSendingPack == 0 && lastMid == 0
      ensures offered == Concat(Queue()) && accepted == []
    {
      numSendingPack := 0;
      lastMid := 0;
      if sendingCurPacket != null {
        sendingCurPacket := null;
      }
      accepted := [];
      offered := Concat(Queue());
    }

    /** clean_context as far as it concerns sending: the counter and the packet in hand go, the queue stays, and is the
        first the slot's next connection is offered (broker/broker.c:35-61). */
    method Clean()
      requires Valid()
      modifies this`numSendingPack, this`sendingCurPacket, this`offered, this`accepted, this`lastMid
      ensures Valid() && packets == old(packets) && sendingCurPacket == null && numSendingPack == 0 && lastMid == 0
      ensures offered == Concat(Queue()) && accepted == []
    {
      NothingBefore(Concat(Queue()));
      WriteClean();
    }

    /** add_client as far as it concerns sending (broker/broker.c:81). */
    method ResetCount()
      requires Valid()
      modifies this`numSendingPack
      ensures Valid() && numSendingPack == 0
    {
      numSendingPack := 0;
    }

    /** context->last_mid is written (broker/hand_mqtt.c:123, 165). */
    method SetMid(mid: nat)
      requires Valid()
      modifies this`lastMid
      ensures Valid() && lastMid == mid
    {
      lastMid := mid;
    }

    /** The packet in hand is through (broker/event_io.c:344-352). */
    method Free()
      requires Valid() && sendingCurPacket != null && sendingCurPacket.wcur >= sendingCurPacket.wlen
      modifies this`sendingCurPacket
      ensures Valid() && sendingCurPacket == null
      ensures Now() == old(Now()).(line := Queue(), inHand := false, wcur := 0)
    {
      assert Rest(Cur()) == [];
      sendingCurPacket := null;
    }

    /** The locked region of a round, with other producers before and after it: the first packet of the line is in hand. */
    method TakeNext() returns (ghost added: seq<seq<byte>>)
      requires Valid() && numSendingPack >= 1
      modifies this`sendingPacket, this`sendingPacketTail, this`sendingCurPacket, this`numSendingPack, this`packets,
               this`stamps, this`repr, this`offered, repr`next
      ensures Valid() && fresh(repr - old(repr)) && old(offered) <= offered && sendingCurPacket != null && old(Line()) != []
      ensures Now() == old(Now()).(line := old(Line()) + added, inHand := true, num := old(numSendingPack) - 1 + |added|)
    {
      FirstInLine();
      added := Producers();
      PopLine();
      ghost var more := Producers();
      Assoc(old(Line()), added, more);
      added := added + more;
    }

    lemma FirstInLine()
      requires Valid() && numSendingPack >= 1
      ensures Line() != []
    {
    }

    lemma HandIsFirst()
      requires sendingCurPacket != null
      ensures Line() != [] && Line()[0] == sendingCurPacket.sendBuf && Line()[1..] == Queue()
    {
    }

    lemma NothingWritten()
      requires Valid() && sendingCurPacket != null
      ensures Wrote(Now(), Now(), [])
    {
      assert accepted + sendingCurPacket.sendBuf[sendingCurPacket.wcur..sendingCurPacket.wcur] == accepted;
    }

    /** What comes of the packet in hand. */
    method Leave(skip: bool, failed: bool)
      requires Valid() && sendingCurPacket != null && (failed ==> skip) && (!skip ==> Now().wcur >= |sendingCurPacket.sendBuf|)
      modifies this`accepted, this`offered, this`numSendingPack, this`sendingCurPacket, this`lastMid
      ensures Valid() && Left(old(Now()), Now(), skip, failed)
      ensures repr == old(repr) && (!failed ==> offered == old(offered))
    {
      HandIsFirst();
      if failed {
        Clean();
        assert Line() == Queue();
      } else if !skip {
        Free();
      }
    }

    /** After this packet has been written. */
    method LeaveWritten(ghost p: Progress, skip: bool, failed: bool, ghost answers: seq<Sent>)
      requires Valid() && Wrote(p, Now(), answers) && WriteEnds(answers, skip, failed)
      requires sendingCurPacket != null && (skip <==> Now().wcur < |sendingCurPacket.sendBuf|)
      modifies this`accepted, this`offered, this`numSendingPack, this`sendingCurPacket, this`lastMid
      ensures Valid() && Writes(p, Now(), skip, failed, answers)
      ensures repr == old(repr) && (!failed ==> offered == old(offered))
    {
      HandIsFirst();
      Leave(skip, failed);
      WritesIs(p, old(Now()), Now(), skip, failed, answers);
    }

    /** The packet in hand is written. */
    method WriteFirst(ghost p: Progress) returns (skip: bool, cleaned: bool, ghost answers: seq<Sent>)
      requires Valid() && Wrote(p, Now(), []) && sendingCurPacket != null
      modifies this`accepted, this`offered, this`numSendingPack, this`sendingCurPacket, this`lastMid, sendingCurPacket`wcur
      ensures Valid() && Writes(p, Now(), skip, cleaned, answers)
      ensures repr == old(repr) && (!cleaned ==> offered == old(offered))
    {
      skip, cleaned, answers := WriteOut(p);
      LeaveWritten(p, skip, cleaned, answers);
    }

    /** One round of the drain loop (broker/event_io.c:307-353), other producers enqueuing between its regions. */
    method Round() returns (skip: bool, cleaned: bool, ghost added: seq<seq<byte>>, ghost answers: seq<Sent>)
      requires Valid() && numSendingPack >= 1
      modifies this, repr
      ensures Valid() && fresh(repr - old(repr)) && RoundOf(old(Now()), Now(), skip, cleaned, added, answers)
      ensures !cleaned ==> old(offered) <= offered
    {
      ghost var p := Now();
      added := TakeNext();
      ghost var q, r := Now(), repr;
      assert fresh(r - old(repr));
      NothingWritten();
      skip, cleaned, answers := WriteFirst(q);
      RoundIs(p, q, Now(), skip, cleaned, added, answers);
    }

    /** So many packets of those counted at p have been sent, in whole rounds. */
    ghost predicate Ongoing(p: Progress, sent: nat, added: seq<seq<byte>>, answers: seq<Sent>)
      reads this, packets, sendingCurPacket
    {
      && Valid() && SentAll(p, Now(), sent, added, answers)
      && sent <= p.num <= |p.line| && (p.line != [] ==> p.wcur <= |p.line[0]|)
    }

    /** A round, on top of those before it. */
    method NextRound(ghost p: Progress, ghost sent: nat, ghost added: seq<seq<byte>>, ghost answers: seq<Sent>)
      returns (skip: bool, cleaned: bool, ghost added': seq<seq<byte>>, ghost answers': seq<Sent>)
      requires Ongoing(p, sent, added, answers) && sent < p.num
      modifies this, repr
      ensures fresh(repr - old(repr)) && (!cleaned ==> old(offered) <= offered)
      ensures skip ==> Valid() && DrainOf(p, Now(), cleaned, sent, added', answers')
      ensures !skip ==> !cleaned && Ongoing(p, sent + 1, added', answers')
    {
      ghost var q, more, last := Now(), [], [];
      skip, cleaned, more, last := Round();
      added', answers' := added + more, answers + last;
      DrainNext(p, q, Now(), sent, added, answers, skip, cleaned, more, last);
    }

    /** The drain loop for one client (broker/event_io.c:281-353): nothing has been sent yet from p on. */
    method DrainFrom(ghost p: Progress)
      returns (ghost left: bool, cleaned: bool, ghost sent: nat, ghost added: seq<seq<byte>>, ghost answers: seq<Sent>)
      requires Ongoing(p, 0, [], []) && numSendingPack == p.num
      modifies this, repr
      ensures fresh(repr - old(repr)) && (!cleaned ==> old(offered) <= offered)
      ensures left ==> Valid() && DrainOf(p, Now(), cleaned, sent, added, answers)
      ensures !left ==> !cleaned && sent == p.num && Ongoing(p, sent, added, answers)
    {
      left, cleaned, sent, added, answers := false, false, 0, [], [];
      var numSending := numSendingPack;
      while numSending > 0
        invariant fresh(repr - old(repr)) && old(offered) <= offered && !cleaned
        invariant Ongoing(p, sent, added, answers) && 0 <= numSending == p.num - sent
        decreases numSending
      {
        numSending := numSending - 1;
        var skip;
        skip, cleaned, added, answers := NextRound(p, sent, added, answers);
        if skip {
          left := true;
          return;
        }
        sent := sent + 1;
      }
    }

    /** The whole of it, as the answers of send have it. */
    method Drain() returns (cleaned: bool, ghost sent: nat, ghost added: seq<seq<byte>>, ghost answers: seq<Sent>)
      requires Valid()
      modifies this, repr
      ensures Valid() && fresh(repr - old(repr)) && (!cleaned ==> old(offered) <= offered)
      ensures DrainOf(old(Now()), Now(), cleaned, sent, added, answers)
    {
      NothingSent();
      ghost var left;
      left, cleaned, sent, added, answers := DrainFrom(Now());
      if !left {
        DrainEnds(old(Now()), Now(), false, false, sent, added, answers);
      }
    }

    lemma NothingSent()
      requires Valid()
      ensures SentAll(Now(), Now(), 0, [], []) && 0 <= numSendingPack <= |Line()|
      ensures Line() != [] ==> Now().wcur <= |Line()[0]|
    {
      assert Line()[..0] == [] && Line()[0..] + [] == Line();
      assert accepted + [] == accepted;
    }
  }

  /** What lies between w and v, and from there to u. */
  lemma Further(before: seq<byte>, buffer: seq<byte>, w: nat, v: nat, u: nat)
    requires w <= v <= u <= |buffer|
    ensures before + buffer[w..v] + buffer[v..u] == before + buffer[w..u]
  {
    assert buffer[w..u] == buffer[w..v] + buffer[v..u];
  }

  lemma NothingBefore(s: seq<byte>)
    ensures [] + [] + s == s
  {
  }

  lemma Onward(before: seq<byte>, buffer: seq<byte>, w: nat, n: nat)
    requires w + n <= |buffer|
    ensures (before + buffer[w..w + n]) + buffer[w + n..] == before + buffer[w..]
  {
    assert buffer[w..] == buffer[w..w + n] + buffer[w + n..];
  }

  function Buffers(packets: seq<Packet>): (q: seq<seq<byte>>)
    ensures |q| == |packets|
  {
    if packets == [] then [] else [packets[0].sendBuf] + Buffers(packets[1..])
  }

  lemma {:induction false} BuffersAppend(packets: seq<Packet>, p: Packet)
    ensures Buffers(packets + [p]) == Buffers(packets) + [p.sendBuf]
  {
    if packets == [] {
      assert [p][1..] == [];
    } else {
      assert (packets + [p])[1..] == packets[1..] + [p];
      BuffersAppend(packets[1..], p);
    }
  }

  /** malloc the computed size and write into it (broker/hand_mqtt.c:43-45, 88-90): all of the buffer is filled. */
  method Serialise(message: Message) returns (bytes: seq<byte>)
    requires Writable(message.Get()) && message.common.length <= MAX_LENGTH
    ensures bytes == Bytes(message.Get())
  {
    SizeExact(message.Get());
    var wlen := SerialiserSize(message);
    var buffer := new byte[wlen];
    var rc := SerialiserWrite(message, buffer);
    bytes := buffer[..];
  }

  /** What ack_msg fills in. */
  function AckOf(kind: nat, payloadLength: nat, retCode: byte, mid: nat): (m: Value)
    requires kind in {CONNACK, SUBACK, PINGRESP}
    ensures Writable(m)
  {
    var c := Common(false, 0, false, kind, payloadLength);
    if kind == CONNACK then BLANK.(common := c, connack := Connack(0, retCode))
    else if kind == SUBACK then BLANK.(common := c, suback := Suback(mid, retCode))
    else BLANK.(common := c)
  }

  /** What goes out on the wire, byte by byte (sections 3.2, 3.9 and 3.13 of MQTT 3.1.1). */
  lemma AckBytes(retCode: byte, mid: nat)
    ensures Bytes(AckOf(CONNACK, 2, retCode, mid)) == [32, 2, 0, retCode]
    ensures mid <= 65535 ==> Bytes(AckOf(SUBACK, 3, retCode, mid)) == [144, 3, mid / 256, mid % 256, retCode]
    ensures Bytes(AckOf(PINGRESP, 0, retCode, mid)) == [208, 0]
  {
    assert EncodeLength(2) == [2] && EncodeLength(3) == [3] && EncodeLength(0) == [0];
  }

  /** And a PUBLISH: type 3 at QoS 0, the length, the topic and the payload (section 3.3). */
  lemma PublishBytes(topic: seq<byte>, payload: seq<byte>)
    ensures var m := PublishMessageOf(topic, payload);
      && m.common.length == 2 + |topic| + |payload|
      && Bytes(m) == [48] + EncodeLength(m.common.length) + (WrittenString(topic) + payload)
  {
    BytesOfPublish(PublishMessageOf(topic, payload));
  }

  lemma BytesOfPublish(m: Value)
    requires Writable(m) && m.common.kind == 3 && m.common.qos == 0 && !m.common.retain && !m.common.dup
    ensures Bytes(m) == [48] + EncodeLength(m.common.length) + (WrittenString(m.publish.topicName) + m.publish.content)
  {
  }
}
