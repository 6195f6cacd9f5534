/** What the parser accepts, packet by packet, and what it makes of the serialiser's output. */
module RoundTrip {
  import opened Seqs
  import opened Wire
  import opened Messages
  import opened Parser

  // ---------- which kinds are parsed ----------

  lemma {:induction false} RunNeverErrs(c: Config, data: seq<byte>, beyond: byte)
    requires c.nread <= |data| && StateOf(c.m.common.kind, c.state)
    requires c.state.Initial? ==> c.m.common.kind in {1, 2, 3, 8, 12, 14}
    ensures Run(c, data, beyond).rc != Error
    decreases Rank(c.state)
  {
    StepBound(c, data, beyond);
    var o := Step(c, data, beyond);
    if o.Go? {
      RunNeverErrs(o.c, data, beyond);
    }
  }

  /** Of the types of section 2.2.1 of MQTT 3.1.1 the parser knows CONNECT (1), CONNACK (2), PUBLISH (3), SUBSCRIBE (8),
      PINGREQ (12) and DISCONNECT (14), and refuses exactly the others; the last two have no body to be read. */
  lemma KindsParsed(m: Value, data: seq<byte>, beyond: byte)
    ensures var o := Parse(m, data, beyond);
      && (o.rc == Error <==> m.common.kind !in {1, 2, 3, 8, 12, 14})
      && (o.rc == Error || m.common.kind in {12, 14} ==> o.c == Config(Initial, 0, m))
      && (m.common.kind in {12, 14} ==> o.rc == Done)
  {
    RunOnce(Config(Initial, 0, m), data, beyond);
    if m.common.kind in {1, 2, 3, 8, 12, 14} {
      RunNeverErrs(Config(Initial, 0, m), data, beyond);
    }
  }

  /** A CONNACK needs its two bytes. */
  lemma ConnackExact(m: Value, data: seq<byte>, beyond: byte)
    requires m.common.kind == 2
    ensures Parse(m, data, beyond) ==
      if |data| < 2 then Stop(Incomplete, Config(ConnackStart, 0, m))
      else Stop(Done, Config(Initial, 2, m.(connack := Connack(data[0], data[1]))))
  {
    RunOnce(Config(Initial, 0, m), data, beyond);
    RunOnce(Config(ConnackStart, 0, m), data, beyond);
  }

  // ---------- PUBLISH ----------

  /** A body the parser accepts as this PUBLISH: section 3.3 of MQTT 3.1.1, except that at least two bytes have to
      follow the topic even where no message id does. */
  predicate PublishLayout(c: Common, data: seq<byte>, p: Publish)
  {
    && |p.topicName| <= 65535
    && if c.qos in {1, 2} then p.messageId <= 65535 && data == String(p.topicName) + Word2(p.messageId) + p.content
       else p.messageId == 0 && |p.content| >= 2 && data == String(p.topicName) + p.content
  }

  lemma RunOnce(c: Config, data: seq<byte>, beyond: byte)
    requires c.nread <= |data| && Live(c)
    ensures var o := Step(c, data, beyond);
            && (o.Go? ==> o.c.nread <= |data| && Live(o.c))
            && Run(c, data, beyond) == if o.Stop? then o else Run(o.c, data, beyond)
  {
    StepBound(c, data, beyond);
  }

  /** The topic is read where a topic stands, and the body is the topic and what follows it. */
  lemma TopicAt(data: seq<byte>, topic: seq<byte>, rest: seq<byte>)
    ensures |topic| <= 65535 && data == String(topic) + rest <==>
            ReadString(data, 0) == Text(topic, 2 + |topic|) && data[2 + |topic|..] == rest
  {
    ReadStringExact(data, 0, topic);
    if |topic| <= 65535 && data == String(topic) + rest {
      assert data[0..2 + |topic|] == String(topic);
    }
  }

  /** The parser's answer on a PUBLISH after its topic was read. */
  lemma PublishRest(m: Value, data: seq<byte>, at: nat, beyond: byte)
    requires m.common.kind == PUBLISH && m.common.length == |data| < MOD32
    requires at == 2 + |m.publish.topicName| <= |data|
    ensures var o := Run(Config(MessageId, at, m), data, beyond);
            if |data| - at < 2 then o.rc == Incomplete
            else
              && o.rc == Done && o.c.nread == |data|
              && o.c.m.publish == if HasMessageId(m.common) then
                   Publish(m.publish.topicName, Word(data[at], data[at + 1]), data[at + 2..])
                 else Publish(m.publish.topicName, 0, data[at..])
  {
    var c := Config(MessageId, at, m);
    RunOnce(c, data, beyond);
    if |data| - at >= 2 {
      var d := Step(c, data, beyond).c;
      RunOnce(d, data, beyond);
      assert ContentLength(d.m) == |data| - d.nread;
      assert data[d.nread..d.nread + (|data| - d.nread)] == data[d.nread..];
    }
  }

  lemma PublishTopic(m: Value, data: seq<byte>, beyond: byte)
    requires m.common.kind == PUBLISH
    ensures var r := ReadString(data, 0);
            if r.Truncated? then Parse(m, data, beyond).rc == Incomplete
            else Parse(m, data, beyond) ==
                 Run(Config(MessageId, r.next, m.(publish := m.publish.(topicName := r.s))), data, beyond)
  {
    RunOnce(Config(Initial, 0, m), data, beyond);
    RunOnce(Config(PublishStart, 0, m), data, beyond);
    RunOnce(Config(TopicName, 0, m), data, beyond);
  }

  lemma WordBytes(high: byte, low: byte, id: nat)
    requires id <= 65535
    ensures Word(high, low) == id <==> [high, low] == Word2(id)
  {
    assert [high, low] == Word2(id) <==> high == Word2(id)[0] && low == Word2(id)[1];
  }

  /** The bytes of a message id. */
  lemma WordAt(data: seq<byte>, at: nat, id: nat, rest: seq<byte>)
    requires at + 2 <= |data| && id <= 65535
    ensures Word(data[at], data[at + 1]) == id && data[at + 2..] == rest <==> data[at..] == Word2(id) + rest
  {
    var high, low, after := data[at], data[at + 1], data[at + 2..];
    assert data[at..] == [high, low] + after;
    WordBytes(high, low, id);
    Aligned([high, low], after, Word2(id), rest);
  }

  /** The parser finishes with a PUBLISH exactly if the body is laid out as that PUBLISH, and then it has read all of it. */
  lemma PublishExact(m: Value, data: seq<byte>, beyond: byte, p: Publish)
    requires m.common.kind == PUBLISH && m.common.length == |data| < MOD32
    ensures var o := Parse(m, data, beyond);
            && (o.rc == Done && o.c.m.publish == p <==> PublishLayout(m.common, data, p))
            && (o.rc == Done ==> o.c.nread == |data|)
            && o.rc != Error
  {
    PublishTopic(m, data, beyond);
    var r := ReadString(data, 0);
    if r.Text? {
      var at := r.next;
      PublishRest(m.(publish := m.publish.(topicName := r.s)), data, at, beyond);
      TopicAt(data, r.s, data[at..]);
      assert data == String(r.s) + data[at..];
      PublishLayoutAt(m.common, data, p, r.s);
    } else if PublishLayout(m.common, data, p) {
      if HasMessageId(m.common) {
        Assoc(String(p.topicName), Word2(p.messageId), p.content);
        TopicAt(data, p.topicName, Word2(p.messageId) + p.content);
      } else {
        TopicAt(data, p.topicName, p.content);
      }
    }
  }

  lemma PublishLayoutAt(c: Common, data: seq<byte>, p: Publish, topic: seq<byte>)
    requires ReadString(data, 0) == Text(topic, 2 + |topic|)
    ensures var at := 2 + |topic|;
            PublishLayout(c, data, p) <==>
            p.topicName == topic && at + 2 <= |data| &&
            (if HasMessageId(c) then p.messageId == Word(data[at], data[at + 1]) && p.content == data[at + 2..]
             else p.messageId == 0 && p.content == data[at..])
  {
    var at := 2 + |topic|;
    if HasMessageId(c) {
      TopicAt(data, p.topicName, Word2(p.messageId) + p.content);
      if |p.topicName| <= 65535 {
        Assoc(String(p.topicName), Word2(p.messageId), p.content);
      }
      if at + 2 <= |data| && p.messageId <= 65535 {
        WordAt(data, at, p.messageId, p.content);
      }
    } else {
      TopicAt(data, p.topicName, p.content);
    }
  }

  /** What publish_msg fills in. */
  function PublishMessageOf(topic: seq<byte>, payload: seq<byte>): (m: Value)
    ensures Writable(m)
  {
    BLANK.(common := Common(false, 0, false, PUBLISH, 2 + |topic| + |payload|), publish := Publish(topic, 0, payload))
  }

  /** A message as loop_read hands it to the parser: blank but for the fixed header. */
  function Received(c: Common): Value { BLANK.(common := c) }

  /** A published message comes back exactly if its topic has a good length and its payload at least two bytes. */
  lemma PublishRoundTrip(topic: seq<byte>, payload: seq<byte>, beyond: byte)
    requires |topic| <= 65535 && 2 + |topic| + |payload| <= MAX_LENGTH
    ensures var m := PublishMessageOf(topic, payload);
            var o := Parse(Received(m.common), Body(m), beyond);
            o.rc == Done && o.c.m.publish.topicName == topic && o.c.m.publish.content == payload
            <==> GoodLength(|topic|) && |payload| >= 2
  {
    var m := PublishMessageOf(topic, payload);
    var data := Body(m);
    var p := Publish(topic, 0, payload);
    PublishExact(Received(m.common), data, beyond, p);
    WrittenStringExact(topic);
    if |payload| >= 2 && PublishLayout(m.common, data, p) {
      assert data[..2 + |topic|] == WrittenString(topic) && data[..2 + |topic|] == String(topic);
    }
    var o := Parse(Received(m.common), data, beyond);
    if o.rc == Done {
      PublishExact(Received(m.common), data, beyond, o.c.m.publish);
    }
  }

  // ---------- SUBSCRIBE ----------

  /** What the parser makes of a SUBSCRIBE, from the bytes of its body: accepted exactly if the id and the filter are
      complete, which are then the slices of the body; the byte behind the filter is taken as QoS without a test, and
      it is a byte of the body exactly if the body goes on there. */
  lemma SubscribeBounds(m: Value, data: seq<byte>, beyond: byte)
    requires m.common.kind == SUBSCRIBE
    ensures var o := Parse(m, data, beyond);
            && (o.rc == Done <==> |data| >= 4 && |data| >= 4 + Word(data[2], data[3]))
            && (o.rc == Done || o.rc == Incomplete)
    ensures var o := Parse(m, data, beyond);
            o.rc == Done ==>
              var n := Word(data[2], data[3]);
              && o.c.m.subscribe == Subscribe(Word(data[0], data[1]), data[4..4 + n], if |data| > 4 + n then data[4 + n] else beyond)
              && o.c.nread == 5 + n
              && (o.c.nread <= |data| <==> |data| > 4 + n)
  {
    RunOnce(Config(Initial, 0, m), data, beyond);
    RunOnce(Config(SubscribeStart, 0, m), data, beyond);
    if |data| >= 2 {
      RunOnce(Step(Config(SubscribeStart, 0, m), data, beyond).c, data, beyond);
    }
  }

  /** A SUBSCRIBE that ends with its filter is accepted with whatever byte lies behind the body as its QoS. */
  lemma SubscribeOverread(beyond: byte)
    ensures var m := Received(Common(false, 1, false, SUBSCRIBE, 5));
            var o := Parse(m, [0, 7] + String([97]), beyond);
            o.rc == Done && o.c.nread == 6 && o.c.m.subscribe == Subscribe(7, [97], beyond)
  {
    var m := Received(Common(false, 1, false, SUBSCRIBE, 5));
    var data: seq<byte> := [0, 7] + String([97]);
    SubscribeBounds(m, data, beyond);
    assert data == [0, 7, 0, 1, 97] && data[4..5] == [97];
  }

  // ---------- CONNECT ----------

  /** The layout of a CONNECT (section 3.1 of MQTT 3.1.1) field by field: field i of connect, f being its flags byte. */
  function Field(i: nat, k: Connect, f: byte): seq<byte>
    requires StringsFit(k)
  {
    if i == 0 then String(k.protocolName)
    else if i == 1 then [k.protocolVersion]
    else if i == 2 then [f]
    else if i == 3 then Word2(k.keepAlive)
    else if i == 4 then String(k.clientId)
    else if i == 5 then Optional(k.flags.will, String(k.willTopic))
    else if i == 6 then Optional(k.flags.will, String(k.willMessage))
    else if i == 7 then Optional(k.flags.usernameFollows, String(k.username))
    else if i == 8 then Optional(k.flags.passwordFollows, String(k.password))
    else []
  }

  /** The first i fields. */
  function Fields(i: nat, k: Connect, f: byte): seq<byte>
    requires StringsFit(k)
  {
    if i == 0 then [] else Fields(i - 1, k, f) + Field(i - 1, k, f)
  }

  predicate StringsFit(k: Connect)
  {
    && |k.protocolName| <= 65535 && |k.clientId| <= 65535 && |k.willTopic| <= 65535
    && |k.willMessage| <= 65535 && |k.username| <= 65535 && |k.password| <= 65535
  }

  function StateAt(i: nat): PState
  {
    if i == 0 then ProtocolName
    else if i == 1 then ProtocolVersion
    else if i == 2 then ConnectFlags
    else if i == 3 then KeepAlive
    else if i == 4 then ClientIdentifier
    else if i == 5 then WillTopic
    else if i == 6 then WillMessage
    else if i == 7 then Username
    else if i == 8 then Password
    else Initial
  }

  /** The fields of k before field i; the rest still blank. A string whose flag is not set stays blank. */
  function Partial(i: nat, k: Connect): Connect
  {
    Connect(
      if i > 0 then k.protocolName else [],
      if i > 1 then k.protocolVersion else 0,
      if i > 2 then k.flags else NO_FLAGS,
      if i > 3 then k.keepAlive else 0,
      if i > 4 then k.clientId else [],
      if i > 5 && k.flags.will then k.willTopic else [],
      if i > 6 && k.flags.will then k.willMessage else [],
      if i > 7 && k.flags.usernameFollows then k.username else [],
      if i > 8 && k.flags.passwordFollows then k.password else [])
  }

  /** The flags that the bits of the flags byte stand for (section 3.1.2 of MQTT 3.1.1): from bit 7 down user name,
      password, will retain, two of will QoS, will and clean session; but will QoS goes by the retain bit. */
  predicate FlagBits(fl: Flags, f: byte)
  {
    && (fl.usernameFollows <==> f >= 128)
    && (fl.passwordFollows <==> f % 128 >= 64)
    && (fl.willRetain <==> f % 64 >= 32)
    && fl.willQos == (if f % 64 >= 32 then 2 else 0)
    && (fl.will <==> f % 8 >= 4)
    && (fl.cleanSession <==> f % 4 >= 2)
  }

  lemma ReadFlagsBits(fl: Flags, f: byte)
    ensures FlagBits(fl, f) <==> fl == ReadFlags(f)
  {
    HighBit(f, 64);
    HighBit(f, 32);
    HighBit(f, 4);
    HighBit(f, 2);
  }

  /** The bit of weight w. */
  lemma HighBit(f: byte, w: nat)
    requires w in {2, 4, 32, 64}
    ensures f / w % 2 == 1 <==> f % (2 * w) >= w
  {
  }

  /** A CONNECT as it can be received: strings only where their flag says so. */
  predicate Receivable(k: Connect, f: byte)
  {
    StringsFit(k) && k.keepAlive <= 65535 && FlagBits(k.flags, f) && Partial(9, k) == k
  }

  /** The parse stands before field i of k, and what it has read is the fields before it. */
  ghost predicate ConnectAt(c: Config, data: seq<byte>, i: nat, k: Connect, f: byte)
  {
    && c.m.common.kind == CONNECT && StringsFit(k)
    && c.state == StateAt(i) && c.m.connect == Partial(i, k)
    && c.nread == |Fields(i, k, f)| <= |data| && data[..c.nread] == Fields(i, k, f)
  }

  /** Reading on over a field that is there. */
  lemma FieldRead(c: Config, data: seq<byte>, beyond: byte, i: nat, k: Connect, f: byte)
    requires i < 9 && ConnectAt(c, data, i, k, f) && Receivable(k, f)
    requires Fields(i + 1, k, f) <= data
    ensures var o := Step(c, data, beyond);
            (if i < 8 then o.Go? else o.Stop? && o.rc == Done) && ConnectAt(o.c, data, i + 1, k, f)
  {
    var at, next := c.nread, |Fields(i + 1, k, f)|;
    assert data[..next] == Fields(i + 1, k, f);
    assert data[at..next] == Field(i, k, f);
    if i < 5 {
      FixedFieldAt(data, at, i, k, f);
      FixedFieldStep(c, data, beyond, i, k, f);
    } else {
      OptionalFieldAt(data, at, i, k, f);
      OptionalFieldStep(c, data, beyond, i, k, f);
    }
  }

  lemma FixedFieldStep(c: Config, data: seq<byte>, beyond: byte, i: nat, k: Connect, f: byte)
    requires Receivable(k, f) && i < 5 && c.nread + |Field(i, k, f)| <= |data|
    requires c.state == StateAt(i) && c.m.connect == Partial(i, k)
    requires i == 0 ==> ReadString(data, c.nread) == Text(k.protocolName, c.nread + |Field(i, k, f)|)
    requires i == 1 ==> data[c.nread] == k.protocolVersion
    requires i == 2 ==> data[c.nread] == f
    requires i == 3 ==> Word(data[c.nread], data[c.nread + 1]) == k.keepAlive
    requires i == 4 ==> ReadString(data, c.nread) == Text(k.clientId, c.nread + |Field(i, k, f)|)
    ensures Step(c, data, beyond) ==
            Go(Config(StateAt(i + 1), c.nread + |Field(i, k, f)|, c.m.(connect := Partial(i + 1, k))))
  {
    ReadFlagsBits(k.flags, f);
  }

  lemma OptionalFieldStep(c: Config, data: seq<byte>, beyond: byte, i: nat, k: Connect, f: byte)
    requires Receivable(k, f) && 5 <= i < 9 && c.nread + |Field(i, k, f)| <= |data|
    requires c.state == StateAt(i) && c.m.connect == Partial(i, k)
    requires i == 5 && k.flags.will ==> ReadString(data, c.nread) == Text(k.willTopic, c.nread + |Field(i, k, f)|)
    requires i == 6 && k.flags.will ==> ReadString(data, c.nread) == Text(k.willMessage, c.nread + |Field(i, k, f)|)
    requires i == 7 && k.flags.usernameFollows ==> ReadString(data, c.nread) == Text(k.username, c.nread + |Field(i, k, f)|)
    requires i == 8 && k.flags.passwordFollows ==> ReadString(data, c.nread) == Text(k.password, c.nread + |Field(i, k, f)|)
    ensures var next := Config(StateAt(i + 1), c.nread + |Field(i, k, f)|, c.m.(connect := Partial(i + 1, k)));
            Step(c, data, beyond) == if i < 8 then Go(next) else Stop(Done, next)
  {
  }

  /** What stands at a field's place, as the parser's tests see it. */
  lemma FixedFieldAt(data: seq<byte>, at: nat, i: nat, k: Connect, f: byte)
    requires i < 5 && Receivable(k, f)
    requires at + |Field(i, k, f)| <= |data| && data[at..at + |Field(i, k, f)|] == Field(i, k, f)
    ensures i == 0 ==> ReadString(data, at) == Text(k.protocolName, at + |Field(i, k, f)|)
    ensures i == 1 ==> data[at] == k.protocolVersion
    ensures i == 2 ==> data[at] == f
    ensures i == 3 ==> Word(data[at], data[at + 1]) == k.keepAlive
    ensures i == 4 ==> ReadString(data, at) == Text(k.clientId, at + |Field(i, k, f)|)
  {
    if i == 0 {
      ReadStringExact(data, at, k.protocolName);
    } else if i == 1 || i == 2 {
      OneByte(data, at);
    } else if i == 3 {
      TwoBytes(data, at);
      WordBytes(data[at], data[at + 1], k.keepAlive);
    } else {
      ReadStringExact(data, at, k.clientId);
    }
  }

  lemma OptionalFieldAt(data: seq<byte>, at: nat, i: nat, k: Connect, f: byte)
    requires 5 <= i < 9 && Receivable(k, f)
    requires at + |Field(i, k, f)| <= |data| && data[at..at + |Field(i, k, f)|] == Field(i, k, f)
    ensures i == 5 && k.flags.will ==> ReadString(data, at) == Text(k.willTopic, at + |Field(i, k, f)|)
    ensures i == 6 && k.flags.will ==> ReadString(data, at) == Text(k.willMessage, at + |Field(i, k, f)|)
    ensures i == 7 && k.flags.usernameFollows ==> ReadString(data, at) == Text(k.username, at + |Field(i, k, f)|)
    ensures i == 8 && k.flags.passwordFollows ==> ReadString(data, at) == Text(k.password, at + |Field(i, k, f)|)
  {
    if i == 5 {
      ReadStringExact(data, at, k.willTopic);
    } else if i == 6 {
      ReadStringExact(data, at, k.willMessage);
    } else if i == 7 {
      ReadStringExact(data, at, k.username);
    } else {
      ReadStringExact(data, at, k.password);
    }
  }

  lemma {:induction false} FieldsPrefix(i: nat, j: nat, k: Connect, f: byte)
    requires i <= j && StringsFit(k)
    ensures Fields(i, k, f) <= Fields(j, k, f)
    decreases j
  {
    if i < j {
      FieldsPrefix(i, j - 1, k, f);
    }
  }

  lemma {:induction false} ConnectRead(c: Config, data: seq<byte>, beyond: byte, i: nat, k: Connect, f: byte)
    requires i < 9 && ConnectAt(c, data, i, k, f) && Receivable(k, f)
    requires Fields(9, k, f) <= data
    ensures var o := Run(c, data, beyond); o.rc == Done && ConnectAt(o.c, data, 9, k, f)
    decreases 9 - i
  {
    FieldsPrefix(i + 1, 9, k, f);
    FieldRead(c, data, beyond, i, k, f);
    RunOnce(c, data, beyond);
    if i < 8 {
      ConnectRead(Step(c, data, beyond).c, data, beyond, i + 1, k, f);
    }
  }

  lemma ConnectStarts(c: Common, data: seq<byte>, beyond: byte)
    requires c.kind == CONNECT
    ensures Parse(Received(c), data, beyond) == Run(Config(ProtocolName, 0, Received(c)), data, beyond)
  {
    RunOnce(Config(Initial, 0, Received(c)), data, beyond);
    RunOnce(Config(ConnectStart, 0, Received(c)), data, beyond);
  }

  /** Completeness: a body that begins with a CONNECT is parsed as it, up to where it ends. */
  lemma ConnectComplete(c: Common, data: seq<byte>, beyond: byte, k: Connect, f: byte)
    requires c.kind == CONNECT && Receivable(k, f) && Fields(9, k, f) <= data
    ensures var o := Parse(Received(c), data, beyond);
            o.rc == Done && o.c.m.connect == k && o.c.nread == |Fields(9, k, f)|
  {
    ConnectStarts(c, data, beyond);
    ConnectRead(Config(ProtocolName, 0, Received(c)), data, beyond, 0, k, f);
  }

  /** What is known of a CONNECT after its first i fields were read. */
  predicate ReadSoFar(i: nat, k: Connect, f: byte)
  {
    k == Partial(i, k) && (i > 2 ==> FlagBits(k.flags, f)) && k.keepAlive <= 65535
  }

  /** Soundness of one field: if the parser reads on, what it read is the field it stored. */
  lemma FieldSound(c: Config, data: seq<byte>, beyond: byte, i: nat, k: Connect, f: byte) returns (k': Connect, f': byte)
    requires i < 9 && ConnectAt(c, data, i, k, f) && ReadSoFar(i, k, f)
    ensures var o := Step(c, data, beyond);
            && (if i < 8 then o.Go? || o.rc == Incomplete else o.Stop? && o.rc != Error)
            && (o.Go? || o.rc == Done ==> ConnectAt(o.c, data, i + 1, k', f') && ReadSoFar(i + 1, k', f'))
  {
    var o := Step(c, data, beyond);
    k', f' := o.c.m.connect, if i == 2 && c.nread < |data| then data[c.nread] else f;
    StepShape(c, data, beyond, i, f');
    if o.Go? || o.rc == Done {
      StepBound(c, data, beyond);
      StoredIsRead(c, data, beyond, i, f');
      SameFields(i, k, k', f, f');
      FieldsGrow(data, c.nread, o.c.nread, Fields(i, k', f'), Field(i, k', f'));
    }
  }

  lemma FieldsGrow(data: seq<byte>, at: nat, next: nat, fields: seq<byte>, field: seq<byte>)
    requires at <= next <= |data| && data[..at] == fields && data[at..next] == field
    ensures data[..next] == fields + field && next == |fields + field|
  {
    assert data[..next] == data[..at] + data[at..next];
  }

  /** One round in a CONNECT state: where it leads and which field it may store. */
  lemma StepShape(c: Config, data: seq<byte>, beyond: byte, i: nat, f: byte)
    requires i < 9 && c.nread <= |data| && c.state == StateAt(i) && ReadSoFar(i, c.m.connect, f)
    requires i == 2 && c.nread < |data| ==> f == data[c.nread]
    ensures var o := Step(c, data, beyond);
            && (if i < 8 then o.Go? || o.rc == Incomplete else o.Stop? && o.rc != Error)
            && (o.Go? || o.rc == Done ==>
                  && o.c.state == StateAt(i + 1) && ReadSoFar(i + 1, o.c.m.connect, f)
                  && Partial(i, o.c.m.connect) == c.m.connect)
  {
    ReadFlagsBits(ReadFlags(f), f);
  }

  /** Storing field i leaves the fields before it. */
  lemma {:induction false} SameFields(i: nat, k: Connect, k': Connect, f: byte, f': byte)
    requires StringsFit(k) && StringsFit(k') && (i > 2 ==> f == f') && Partial(i, k) == Partial(i, k')
    ensures Fields(i, k, f) == Fields(i, k', f')
  {
    if i > 0 {
      assert Partial(i - 1, k) == Partial(i - 1, Partial(i, k)) && Partial(i - 1, k') == Partial(i - 1, Partial(i, k'));
      SameFields(i - 1, k, k', f, f');
    }
  }

  lemma StoredIsRead(c: Config, data: seq<byte>, beyond: byte, i: nat, f: byte)
    requires i < 9 && c.nread <= |data| && c.state == StateAt(i) && StringsFit(c.m.connect)
    requires i == 2 && c.nread < |data| ==> f == data[c.nread]
    requires var o := Step(c, data, beyond); o.Go? || o.rc == Done
    ensures var o := Step(c, data, beyond);
            && StringsFit(o.c.m.connect) && c.nread <= o.c.nread <= |data|
            && data[c.nread..o.c.nread] == Field(i, o.c.m.connect, f)
  {
    var o := Step(c, data, beyond);
    var r := ReadString(data, c.nread);
    if i == 1 || i == 2 || i == 3 {
      FewBytesStored(c, data, beyond, i, f);
    } else if StringWanted(i, c.m.connect.flags) {
      StringStored(c, data, beyond, i, f);
      ReadStringExact(data, c.nread, r.s);
    } else {
      assert o.c.nread == c.nread && data[c.nread..o.c.nread] == [];
    }
  }

  predicate StringWanted(i: nat, fl: Flags)
  {
    i == 0 || i == 4 || ((i == 5 || i == 6) && fl.will) || (i == 7 && fl.usernameFollows) || (i == 8 && fl.passwordFollows)
  }

  lemma FewBytesStored(c: Config, data: seq<byte>, beyond: byte, i: nat, f: byte)
    requires 1 <= i <= 3 && c.nread <= |data| && c.state == StateAt(i) && StringsFit(c.m.connect)
    requires i == 2 && c.nread < |data| ==> f == data[c.nread]
    requires Step(c, data, beyond).Go?
    ensures var o := Step(c, data, beyond);
            && StringsFit(o.c.m.connect) && c.nread <= o.c.nread <= |data|
            && data[c.nread..o.c.nread] == Field(i, o.c.m.connect, f)
  {
    var at := c.nread;
    if i == 3 {
      TwoBytes(data, at);
      WordBytes(data[at], data[at + 1], Word(data[at], data[at + 1]));
    } else {
      OneByte(data, at);
    }
  }

  lemma TwoBytes(data: seq<byte>, at: nat)
    requires at + 1 < |data|
    ensures data[at..at + 2] == [data[at], data[at + 1]]
  {
  }

  lemma OneByte(data: seq<byte>, at: nat)
    requires at < |data|
    ensures data[at..at + 1] == [data[at]]
  {
  }

  lemma StringStored(c: Config, data: seq<byte>, beyond: byte, i: nat, f: byte)
    requires i < 9 && c.nread <= |data| && c.state == StateAt(i) && StringsFit(c.m.connect)
    requires StringWanted(i, c.m.connect.flags)
    requires var o := Step(c, data, beyond); o.Go? || o.rc == Done
    ensures var o, r := Step(c, data, beyond), ReadString(data, c.nread);
            && r.Text? && |r.s| <= 65535 && r.next == c.nread + 2 + |r.s| && o.c.nread == r.next
            && StringsFit(o.c.m.connect) && Field(i, o.c.m.connect, f) == String(r.s)
  {
  }

  lemma {:induction false} ConnectSoundFrom(c: Config, data: seq<byte>, beyond: byte, i: nat, k: Connect, f: byte)
      returns (k': Connect, f': byte)
    requires i < 9 && ConnectAt(c, data, i, k, f) && ReadSoFar(i, k, f)
    ensures var o := Run(c, data, beyond);
            && (o.rc == Done || o.rc == Incomplete)
            && (o.rc == Done ==> ConnectAt(o.c, data, 9, k', f') && Receivable(k', f'))
    decreases 9 - i
  {
    RunOnce(c, data, beyond);
    k', f' := FieldSound(c, data, beyond, i, k, f);
    if Step(c, data, beyond).Go? {
      k', f' := ConnectSoundFrom(Step(c, data, beyond).c, data, beyond, i + 1, k', f');
    }
  }

  /** The parser finishes with a CONNECT exactly if the body begins with it, and it stops where that CONNECT ends. */
  lemma ConnectExact(c: Common, data: seq<byte>, beyond: byte, k: Connect)
    requires c.kind == CONNECT
    ensures var o := Parse(Received(c), data, beyond);
            && o.rc != Error
            && (o.rc == Done && o.c.m.connect == k <==> exists f: byte :: Receivable(k, f) && Fields(9, k, f) <= data)
            && (forall f: byte | Receivable(k, f) && Fields(9, k, f) <= data :: o.c.nread == |Fields(9, k, f)|)
  {
    forall f: byte | Receivable(k, f) && Fields(9, k, f) <= data
      ensures var o := Parse(Received(c), data, beyond);
              o.rc == Done && o.c.m.connect == k && o.c.nread == |Fields(9, k, f)|
    {
      ConnectComplete(c, data, beyond, k, f);
    }
    ConnectStarts(c, data, beyond);
    var k', f' := ConnectSoundFrom(Config(ProtocolName, 0, Received(c)), data, beyond, 0, NO_CONNECT, 0);
  }

  // ---------- the same from the body's bytes ----------

  /** What a CONNECT begins with whatever its flags are. */
  function ConnectHead(name: seq<byte>, version: byte, f: byte, keepAlive: nat, id: seq<byte>): seq<byte>
    requires |name| <= 65535 && |id| <= 65535
  {
    String(name) + [version, f] + Word2(keepAlive) + String(id)
  }

  /** The strings that the bits of f ask for: bit 2 for will topic and will message, bit 7 for the user name, bit 6 for the
      password, in this order. */
  function Asked(f: byte, k: Connect): seq<byte>
    requires StringsFit(k)
  {
    Optional(f % 8 >= 4, String(k.willTopic)) + Optional(f % 8 >= 4, String(k.willMessage))
    + Optional(f >= 128, String(k.username)) + Optional(f % 128 >= 64, String(k.password))
  }

  /** No string that the bits do not ask for is set. */
  predicate OnlyAsked(f: byte, k: Connect)
  {
    && (f % 8 < 4 ==> k.willTopic == [] && k.willMessage == [])
    && (f < 128 ==> k.username == []) && (f % 128 < 64 ==> k.password == [])
  }

  lemma FieldsLast(i: nat, k: Connect, f: byte)
    requires i > 0 && StringsFit(k)
    ensures Fields(i, k, f) == Fields(i - 1, k, f) + Field(i - 1, k, f)
  {
  }

  lemma FieldsUnfold(k: Connect, f: byte)
    requires StringsFit(k)
    ensures Fields(9, k, f) ==
            [] + Field(0, k, f) + Field(1, k, f) + Field(2, k, f) + Field(3, k, f) + Field(4, k, f)
            + Field(5, k, f) + Field(6, k, f) + Field(7, k, f) + Field(8, k, f)
  {
    FieldsLast(9, k, f);
    FieldsLast(8, k, f);
    FieldsLast(7, k, f);
    FieldsLast(6, k, f);
    FieldsLast(5, k, f);
    FieldsLast(4, k, f);
    FieldsLast(3, k, f);
    FieldsLast(2, k, f);
    FieldsLast(1, k, f);
  }

  lemma FieldsAreHead(k: Connect, f: byte)
    requires StringsFit(k) && FlagBits(k.flags, f)
    ensures Fields(9, k, f) == ConnectHead(k.protocolName, k.protocolVersion, f, k.keepAlive, k.clientId) + Asked(f, k)
  {
    FieldsUnfold(k, f);
    assert [k.protocolVersion, f] == Field(1, k, f) + Field(2, k, f);
    Concat9(Field(0, k, f), Field(1, k, f), Field(2, k, f), Field(3, k, f), Field(4, k, f),
            Field(5, k, f), Field(6, k, f), Field(7, k, f), Field(8, k, f));
  }

  /** Two strings at one place are the same, and so is what follows them. */
  lemma StringsAgree(a: seq<byte>, x: seq<byte>, b: seq<byte>, y: seq<byte>)
    requires |a| <= 65535 && |b| <= 65535 && String(a) + x <= String(b) + y
    ensures a == b && x <= y
  {
    var s, t := String(a) + x, String(b) + y;
    assert s[0] == t[0] && s[1] == t[1];
    assert |a| == |b|;
    assert a == s[2..2 + |a|] == t[2..2 + |a|] == b;
    PrefixRest(String(a), x, y);
  }

  lemma PrefixRest(a: seq<byte>, x: seq<byte>, y: seq<byte>)
    ensures a + x <= a + y <==> x <= y
  {
    if a + x <= a + y {
      assert x == (a + x)[|a|..] && (a + x) == (a + y)[..|a + x|];
      assert x == y[..|x|];
    }
    if x <= y {
      assert (a + y)[..|a + x|] == a + y[..|x|];
    }
  }

  /** Four bytes between the strings. */
  lemma FourAgree(v: byte, f: byte, n: nat, x: seq<byte>, v': byte, f': byte, n': nat, y: seq<byte>)
    requires n <= 65535 && n' <= 65535 && [v, f] + Word2(n) + x <= [v', f'] + Word2(n') + y
    ensures v == v' && f == f' && n == n' && x <= y
  {
    var s, t := [v, f] + Word2(n) + x, [v', f'] + Word2(n') + y;
    assert s[0] == t[0] && s[1] == t[1] && s[2] == t[2] && s[3] == t[3];
    assert n == n / 256 % 256 * 256 + n % 256 && n' == n' / 256 % 256 * 256 + n' % 256;
    PrefixRest([v, f] + Word2(n), x, y);
  }

  lemma HeadsAgree(name: seq<byte>, v: byte, f: byte, n: nat, id: seq<byte>, x: seq<byte>,
                   name': seq<byte>, v': byte, f': byte, n': nat, id': seq<byte>, y: seq<byte>)
    requires |name| <= 65535 && |id| <= 65535 && |name'| <= 65535 && |id'| <= 65535 && n <= 65535 && n' <= 65535
    requires ConnectHead(name, v, f, n, id) + x <= ConnectHead(name', v', f', n', id') + y
    ensures name == name' && v == v' && f == f' && n == n' && id == id' && x <= y
  {
    HeadAssoc(String(name), [v, f], Word2(n), String(id), x);
    HeadAssoc(String(name'), [v', f'], Word2(n'), String(id'), y);
    StringsAgree(name, [v, f] + Word2(n) + (String(id) + x), name', [v', f'] + Word2(n') + (String(id') + y));
    FourAgree(v, f, n, String(id) + x, v', f', n', String(id') + y);
    StringsAgree(id, x, id', y);
  }

  lemma HeadAssoc(a: seq<byte>, b: seq<byte>, c: seq<byte>, d: seq<byte>, x: seq<byte>)
    ensures a + b + c + d + x == a + (b + c + (d + x))
  {
  }

  /** From the bytes: of a body that begins with protocol name, version, flags byte f, keep-alive and client id, the parser
      makes a CONNECT exactly if the strings that the bits of f ask for follow; the flags are those bits. */
  lemma ConnectByBits(c: Common, beyond: byte, name: seq<byte>, version: byte, f: byte, keepAlive: nat, id: seq<byte>,
                      rest: seq<byte>, k: Connect)
    requires c.kind == CONNECT && |name| <= 65535 && |id| <= 65535 && keepAlive <= 65535
    ensures var o := Parse(Received(c), ConnectHead(name, version, f, keepAlive, id) + rest, beyond);
      o.rc == Done && o.c.m.connect == k <==>
        && k.protocolName == name && k.protocolVersion == version && k.keepAlive == keepAlive && k.clientId == id
        && FlagBits(k.flags, f) && OnlyAsked(f, k) && StringsFit(k) && Asked(f, k) <= rest
  {
    var data := ConnectHead(name, version, f, keepAlive, id) + rest;
    ConnectExact(c, data, beyond, k);
    forall g: byte | Receivable(k, g) && Fields(9, k, g) <= data
      ensures g == f && k.protocolName == name && k.protocolVersion == version && k.keepAlive == keepAlive
              && k.clientId == id && Asked(f, k) <= rest && OnlyAsked(f, k)
    {
      FieldsAreHead(k, g);
      HeadsAgree(k.protocolName, k.protocolVersion, g, k.keepAlive, k.clientId, Asked(g, k),
                 name, version, f, keepAlive, id, rest);
      AskedIsPartial(g, k);
    }
    if k.protocolName == name && k.protocolVersion == version && k.keepAlive == keepAlive && k.clientId == id
      && FlagBits(k.flags, f) && OnlyAsked(f, k) && StringsFit(k) && Asked(f, k) <= rest {
      FieldsAreHead(k, f);
      PrefixRest(ConnectHead(name, version, f, keepAlive, id), Asked(f, k), rest);
      AskedIsPartial(f, k);
      assert Receivable(k, f);
    }
  }

  lemma AskedIsPartial(f: byte, k: Connect)
    requires FlagBits(k.flags, f)
    ensures Partial(9, k) == k <==> OnlyAsked(f, k)
  {
  }

  /** An ordinary client: MQTT 3.1.1, a clean session, 60 seconds, the id "ab". */
  lemma PlainConnect(c: Common, beyond: byte)
    requires c.kind == 1
    ensures var o := Parse(Received(c), [0, 4, 77, 81, 84, 84, 4, 2, 0, 60, 0, 2, 97, 98], beyond);
      && o.rc == Done && o.c.nread == 14
      && o.c.m.connect == Connect([77, 81, 84, 84], 4, Flags(false, false, false, 0, false, true), 60, [97, 98], [], [], [], [])
  {
    var k := Connect([77, 81, 84, 84], 4, Flags(false, false, false, 0, false, true), 60, [97, 98], [], [], [], []);
    PlainFields(k);
    ConnectComplete(c, Fields(9, k, 2), beyond, k, 2);
  }

  lemma PlainFields(k: Connect)
    requires k == Connect([77, 81, 84, 84], 4, Flags(false, false, false, 0, false, true), 60, [97, 98], [], [], [], [])
    ensures Receivable(k, 2) && Fields(9, k, 2) == [0, 4, 77, 81, 84, 84, 4, 2, 0, 60, 0, 2, 97, 98]
  {
    FieldsAreHead(k, 2);
    NoneAsked(k);
    PlainHead();
    NothingBehind(ConnectHead([77, 81, 84, 84], 4, 2, 60, [97, 98]));
  }

  lemma NoneAsked(k: Connect)
    requires StringsFit(k)
    ensures Asked(2, k) == []
  {
  }

  lemma NothingBehind(s: seq<byte>)
    ensures s + [] == s
  {
  }

  lemma PlainHead()
    ensures ConnectHead([77, 81, 84, 84], 4, 2, 60, [97, 98]) == [0, 4, 77, 81, 84, 84, 4, 2, 0, 60, 0, 2, 97, 98]
  {
    assert String([77, 81, 84, 84]) == [0, 4, 77, 81, 84, 84];
    assert String([97, 98]) == [0, 2, 97, 98];
    assert Word2(60) == [0, 60];
  }

  // ---------- a serialised CONNECT ----------

  /** Field i as the serialiser writes it. */
  function WrittenField(i: nat, k: Connect): seq<byte>
    requires k.flags.willQos < 4
  {
    if i == 0 then WrittenString(k.protocolName)
    else if i == 1 then [k.protocolVersion]
    else if i == 2 then [FlagsByte(k.flags)]
    else if i == 3 then Word2(k.keepAlive)
    else if i == 4 then WrittenString(k.clientId)
    else if i == 5 then Optional(k.flags.will, WrittenString(k.willTopic))
    else if i == 6 then Optional(k.flags.will, WrittenString(k.willMessage))
    else if i == 7 then Optional(k.flags.usernameFollows, WrittenString(k.username))
    else if i == 8 then Optional(k.flags.passwordFollows, WrittenString(k.password))
    else []
  }

  function WrittenFields(i: nat, k: Connect): seq<byte>
    requires k.flags.willQos < 4
  {
    if i == 0 then [] else WrittenFields(i - 1, k) + WrittenField(i - 1, k)
  }

  lemma ConnectBodyFields(k: Connect)
    requires k.flags.willQos < 4
    ensures ConnectBody(k) == WrittenFields(9, k)
  {
    WrittenFieldsUnfold(k);
    assert [k.protocolVersion, FlagsByte(k.flags)] == WrittenField(1, k) + WrittenField(2, k);
    Concat9(WrittenField(0, k), WrittenField(1, k), WrittenField(2, k), WrittenField(3, k), WrittenField(4, k),
            WrittenField(5, k), WrittenField(6, k), WrittenField(7, k), WrittenField(8, k));
  }

  lemma WrittenFieldsUnfold(k: Connect)
    requires k.flags.willQos < 4
    ensures WrittenFields(9, k) ==
            [] + WrittenField(0, k) + WrittenField(1, k) + WrittenField(2, k) + WrittenField(3, k) + WrittenField(4, k)
            + WrittenField(5, k) + WrittenField(6, k) + WrittenField(7, k) + WrittenField(8, k)
  {
    WrittenFieldsLast(9, k);
    WrittenFieldsLast(8, k);
    WrittenFieldsLast(7, k);
    WrittenFieldsLast(6, k);
    WrittenFieldsLast(5, k);
    WrittenFieldsLast(4, k);
    WrittenFieldsLast(3, k);
    WrittenFieldsLast(2, k);
    WrittenFieldsLast(1, k);
  }

  lemma WrittenFieldsLast(i: nat, k: Connect)
    requires i > 0 && k.flags.willQos < 4
    ensures WrittenFields(i, k) == WrittenFields(i - 1, k) + WrittenField(i - 1, k)
  {
  }

  lemma Concat9(a: seq<byte>, b: seq<byte>, c: seq<byte>, d: seq<byte>, e: seq<byte>,
                f: seq<byte>, g: seq<byte>, h: seq<byte>, i: seq<byte>)
    ensures [] + a + b + c + d + e + f + g + h + i == (a + (b + c) + d + e) + (f + g + h + i)
  {
    var head := a + (b + c) + d + e;
    assert [] + a + b + c + d + e == head;
    Concat4(head, f, g, h, i);
  }

  /** What comes back: will_qos is read from the retain bit. */
  function ReadBack(k: Connect): Connect { k.(flags := k.flags.(willQos := 2 * Bit(k.flags.willRetain))) }

  lemma FlagsReadBack(fl: Flags)
    requires fl.willQos < 4
    ensures ReadFlags(FlagsByte(fl)) == fl.(willQos := 2 * Bit(fl.willRetain))
  {
    var f: int := FlagsByte(fl);
    assert f / 128 == Bit(fl.usernameFollows);
    assert f / 64 == Bit(fl.passwordFollows) + 2 * Bit(fl.usernameFollows);
    assert f / 32 == Bit(fl.willRetain) + 2 * Bit(fl.passwordFollows) + 4 * Bit(fl.usernameFollows);
    var high := fl.willQos + 4 * (f / 32);
    assert f / 4 == Bit(fl.will) + 2 * high;
    assert f / 2 == Bit(fl.cleanSession) + 2 * (f / 4);
  }

  /** The lengths of the strings that are written come out right. */
  predicate GoodStrings(k: Connect)
  {
    && GoodLength(|k.protocolName|) && GoodLength(|k.clientId|)
    && (k.flags.will ==> GoodLength(|k.willTopic|) && GoodLength(|k.willMessage|))
    && (k.flags.usernameFollows ==> GoodLength(|k.username|))
    && (k.flags.passwordFollows ==> GoodLength(|k.password|))
  }

  /** When field i comes out right. */
  predicate GoodField(i: nat, k: Connect, f: byte)
    requires k.flags.willQos < 4
  {
    if i == 0 then GoodLength(|k.protocolName|)
    else if i == 2 then f == FlagsByte(k.flags)
    else if i == 4 then GoodLength(|k.clientId|)
    else if i == 5 then k.flags.will ==> GoodLength(|k.willTopic|)
    else if i == 6 then k.flags.will ==> GoodLength(|k.willMessage|)
    else if i == 7 then k.flags.usernameFollows ==> GoodLength(|k.username|)
    else if i == 8 then k.flags.passwordFollows ==> GoodLength(|k.password|)
    else true
  }

  lemma FieldExact(i: nat, k: Connect, f: byte)
    requires i < 9 && StringsFit(k) && k.flags.willQos < 4
    ensures |Field(i, ReadBack(k), f)| == |WrittenField(i, k)|
    ensures Field(i, ReadBack(k), f) == WrittenField(i, k) <==> GoodField(i, k, f)
  {
    if i == 0 {
      WrittenStringExact(k.protocolName);
    } else if i == 2 {
      assert [f] == [FlagsByte(k.flags)] <==> [f][0] == [FlagsByte(k.flags)][0];
    } else if i == 4 {
      WrittenStringExact(k.clientId);
    } else if i == 5 {
      WrittenStringExact(k.willTopic);
    } else if i == 6 {
      WrittenStringExact(k.willMessage);
    } else if i == 7 {
      WrittenStringExact(k.username);
    } else if i == 8 {
      WrittenStringExact(k.password);
    }
  }

  lemma {:induction false} FieldsExact(i: nat, k: Connect, f: byte)
    requires i <= 9 && StringsFit(k) && k.flags.willQos < 4
    ensures |Fields(i, ReadBack(k), f)| == |WrittenFields(i, k)|
    ensures Fields(i, ReadBack(k), f) == WrittenFields(i, k) <==>
            forall j: nat | j < i :: Field(j, ReadBack(k), f) == WrittenField(j, k)
  {
    if i > 0 {
      FieldsExact(i - 1, k, f);
      FieldExact(i - 1, k, f);
      var a, b := Fields(i - 1, ReadBack(k), f), WrittenFields(i - 1, k);
      Aligned(a, Field(i - 1, ReadBack(k), f), b, WrittenField(i - 1, k));
    }
  }

  lemma Aligned(a: seq<byte>, x: seq<byte>, b: seq<byte>, y: seq<byte>)
    requires |a| == |b|
    ensures a + x == b + y <==> a == b && x == y
  {
    if a + x == b + y {
      assert a == (a + x)[..|a|] && x == (a + x)[|a|..];
      assert b == (b + y)[..|b|] && y == (b + y)[|b|..];
    }
  }

  lemma AllFieldsExact(k: Connect, f: byte)
    requires StringsFit(k) && k.flags.willQos < 4
    ensures |Fields(9, ReadBack(k), f)| == |ConnectBody(k)|
    ensures Fields(9, ReadBack(k), f) == ConnectBody(k) <==> GoodStrings(k) && f == FlagsByte(k.flags)
  {
    ConnectBodyFields(k);
    FieldsExact(9, k, f);
    forall j: nat | j < 9
      ensures Field(j, ReadBack(k), f) == WrittenField(j, k) <==> GoodField(j, k, f)
    {
      FieldExact(j, k, f);
    }
    GoodFieldsExact(k, f);
  }

  lemma GoodFieldsExact(k: Connect, f: byte)
    requires k.flags.willQos < 4
    ensures (forall j: nat | j < 9 :: GoodField(j, k, f)) <==> GoodStrings(k) && f == FlagsByte(k.flags)
  {
    if forall j: nat | j < 9 :: GoodField(j, k, f) {
      assert GoodField(0, k, f) && GoodField(2, k, f) && GoodField(4, k, f) && GoodField(5, k, f) && GoodField(6, k, f)
          && GoodField(7, k, f) && GoodField(8, k, f);
    }
  }

  /** The body begins with the fields that come back exactly under the flags byte that was written. */
  lemma BodyFits(k: Connect, f: byte)
    requires StringsFit(k) && k.flags.willQos < 4
    ensures |Fields(9, ReadBack(k), f)| == |ConnectBody(k)|
    ensures Fields(9, ReadBack(k), f) <= ConnectBody(k) <==> GoodStrings(k) && f == FlagsByte(k.flags)
  {
    AllFieldsExact(k, f);
    assert ConnectBody(k)[..|ConnectBody(k)|] == ConnectBody(k);
  }

  lemma BackIsReceivable(k: Connect)
    requires StringsFit(k) && k.keepAlive <= 65535 && k.flags.willQos < 4 && Partial(9, k) == k
    ensures Receivable(ReadBack(k), FlagsByte(k.flags))
  {
    FlagsReadBack(k.flags);
    ReadFlagsBits(ReadBack(k).flags, FlagsByte(k.flags));
    assert Partial(9, ReadBack(k)) == ReadBack(k);
  }

  /** A serialised CONNECT is parsed back field for field, but for will_qos, exactly if the strings that are written
      have good lengths; and then the parser stops at the end of the body. */
  lemma ConnectRoundTrip(k: Connect, beyond: byte)
    requires StringsFit(k) && k.keepAlive <= 65535 && k.flags.willQos < 4 && Partial(9, k) == k
    ensures var m := BLANK.(common := Common(false, 0, false, CONNECT, |ConnectBody(k)|), connect := k);
            var o := Parse(Received(m.common), Body(m), beyond);
            && (o.rc == Done && o.c.m.connect == ReadBack(k) <==> GoodStrings(k))
            && (GoodStrings(k) ==> o.c.nread == |Body(m)|)
            && (ReadBack(k) == k <==> k.flags.willQos == 2 * Bit(k.flags.willRetain))
  {
    var m := BLANK.(common := Common(false, 0, false, CONNECT, |ConnectBody(k)|), connect := k);
    ConnectExact(m.common, Body(m), beyond, ReadBack(k));
    BackIsReceivable(k);
    forall f: byte ensures Fields(9, ReadBack(k), f) <= Body(m) <==> GoodStrings(k) && f == FlagsByte(k.flags) {
      BodyFits(k, f);
    }
    BodyFits(k, FlagsByte(k.flags));
  }
}
