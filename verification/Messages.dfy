/** MQTT control packets as the broker holds them, and the serialiser. */
module Messages {
  import opened Wire
  import Masks

  const CONNECT := 1
  const CONNACK := 2
  const PUBLISH := 3
  const SUBSCRIBE := 8
  const SUBACK := 9
  const PINGREQ := 12
  const PINGRESP := 13
  const DISCONNECT := 14

  // The members of the union mqtt_message_t. Single-bit fields are booleans.

  datatype Common = Common(retain: bool, qos: nat, dup: bool, kind: nat, length: nat)

  datatype Flags = Flags(usernameFollows: bool, passwordFollows: bool, willRetain: bool,
                         willQos: nat, will: bool, cleanSession: bool)

  datatype Connect = Connect(protocolName: seq<byte>, protocolVersion: byte, flags: Flags, keepAlive: nat,
                             clientId: seq<byte>, willTopic: seq<byte>, willMessage: seq<byte>,
                             username: seq<byte>, password: seq<byte>)

  datatype Connack = Connack(unused: byte, returnCode: byte)

  datatype Publish = Publish(topicName: seq<byte>, messageId: nat, content: seq<byte>)

  datatype Subscribe = Subscribe(messageId: nat, topicName: seq<byte>, qos: byte)

  datatype Suback = Suback(messageId: nat, returnCode: byte)

  datatype Value = Value(common: Common, connect: Connect, connack: Connack, publish: Publish,
                         subscribe: Subscribe, suback: Suback)

  const NO_FLAGS := Flags(false, false, false, 0, false, false)
  const NO_CONNECT := Connect([], 0, NO_FLAGS, 0, [], [], [], [], [])

  /** A message after mqtt_message_init or memset. */
  const BLANK := Value(Common(false, 0, false, 0, 0), NO_CONNECT, Connack(0, 0), Publish([], 0, []),
                       Subscribe(0, [], 0), Suback(0, 0))

  class Message {
    var common: Common
    var connect: Connect
    var connack: Connack
    var publish: Publish
    var subscribe: Subscribe
    var suback: Suback

    constructor ()
      ensures Get() == BLANK
    {
      common, connect, connack := BLANK.common, BLANK.connect, BLANK.connack;
      publish, subscribe, suback := BLANK.publish, BLANK.subscribe, BLANK.suback;
    }

    function Get(): Value
      reads this
    {
      Value(common, connect, connack, publish, subscribe, suback)
    }
  }

  // ---------- the fixed header ----------

  function Bit(b: bool): nat { if b then 1 else 0 }

  /** The fields fit their bits. */
  predicate CommonOk(c: Common) { c.qos < 4 && c.kind < 16 }

  /** The serialiser's first byte: shifts and sums. */
  function HeaderByte(c: Common): byte
    requires CommonOk(c)
  {
    Bit(c.retain) + 2 * c.qos + 8 * Bit(c.dup) + 16 * c.kind
  }

  /** mqtt_parser_command: shifts and masks. */
  function ReadHeader(b: byte, length: nat): (c: Common)
    ensures CommonOk(c)
  {
    Common(b % 2 == 1, b / 2 % 4, b / 8 % 2 == 1, b / 16 % 16, length)
  }

  /** Section 2.2 of MQTT 3.1.1, on the byte: retain is the lowest bit, then two of QoS and dup, and the type is the upper
      half. So it is read ... */
  lemma ReadHeaderBits(b: byte, length: nat)
    ensures var c := ReadHeader(b, length);
      && (c.retain <==> b % 2 == 1) && c.qos == b % 8 / 2 && (c.dup <==> b % 16 >= 8) && c.kind == b / 16 && c.length == length
  {
    Upper(b, 2, 4);
    Upper(b, 8, 2);
  }

  /** The bits from one place on, below another. */
  lemma Upper(b: byte, w: nat, m: nat)
    requires (w, m) in {(2, 4), (8, 2)}
    ensures b / w % m == b % (w * m) / w
  {
    if w == 2 {
      assert b / 2 == 4 * (b / 8) + b % 8 / 2;
    } else {
      assert b / 8 == 2 * (b / 16) + b % 16 / 8;
    }
  }

  /** ... and written. */
  lemma HeaderByteBits(c: Common)
    requires CommonOk(c)
    ensures var b := HeaderByte(c);
      && b % 2 == Bit(c.retain) && b % 8 / 2 == c.qos && (b % 16 >= 8 <==> c.dup) && b / 16 == c.kind
  {
    ReadHeaderBits(HeaderByte(c), c.length);
    HeaderRoundTrip(c);
  }

  lemma HeaderRoundTrip(c: Common)
    requires CommonOk(c)
    ensures ReadHeader(HeaderByte(c), c.length) == c
  {
    var b: int := HeaderByte(c);
    assert b / 2 == c.qos + 4 * Bit(c.dup) + 8 * c.kind;
    assert b / 8 == Bit(c.dup) + 2 * c.kind;
  }

  // ---------- what is written ----------

  /** The serialiser's CONNECT flags: will_qos goes to bits 3 and 4. */
  function FlagsByte(f: Flags): byte
    requires f.willQos < 4
  {
    128 * Bit(f.usernameFollows) + 64 * Bit(f.passwordFollows) + 32 * Bit(f.willRetain)
    + 8 * f.willQos + 4 * Bit(f.will) + 2 * Bit(f.cleanSession)
  }

  /** Section 3.1.2 of MQTT 3.1.1, on the byte that is written; the lowest bit is reserved. */
  lemma FlagsByteBits(f: Flags)
    requires f.willQos < 4
    ensures var b := FlagsByte(f);
      && (b >= 128 <==> f.usernameFollows) && (b % 128 >= 64 <==> f.passwordFollows) && (b % 64 >= 32 <==> f.willRetain)
      && b % 32 / 8 == f.willQos && (b % 8 >= 4 <==> f.will) && (b % 4 >= 2 <==> f.cleanSession) && b % 2 == 0
  {
    FlagsLow(f);
    FlagsHigh(f);
  }

  /** The sums of the bits below each place. */
  lemma FlagsLow(f: Flags)
    requires f.willQos < 4
    ensures var b := FlagsByte(f);
      && b % 4 == 2 * Bit(f.cleanSession) && b % 8 == 4 * Bit(f.will) + b % 4 && b % 32 == 8 * f.willQos + b % 8
  {
    var b := FlagsByte(f);
    var high := 4 * Bit(f.usernameFollows) + 2 * Bit(f.passwordFollows) + Bit(f.willRetain);
    var will, clean := Bit(f.will), Bit(f.cleanSession);
    Masks.DivModOf(b, 4, 8 * high + 2 * f.willQos + will, 2 * clean);
    Masks.DivModOf(b, 8, 4 * high + f.willQos, 4 * will + 2 * clean);
    Masks.DivModOf(b, 32, high, 8 * f.willQos + 4 * will + 2 * clean);
  }

  lemma FlagsHigh(f: Flags)
    requires f.willQos < 4
    ensures var b := FlagsByte(f);
      b % 64 == 32 * Bit(f.willRetain) + b % 32 && b % 128 == 64 * Bit(f.passwordFollows) + b % 64
  {
    var b := FlagsByte(f);
    var user, password, retain := Bit(f.usernameFollows), Bit(f.passwordFollows), Bit(f.willRetain);
    var low := 8 * f.willQos + 4 * Bit(f.will) + 2 * Bit(f.cleanSession);
    Masks.DivModOf(b, 32, 4 * user + 2 * password + retain, low);
    Masks.DivModOf(b, 64, 2 * user + password, 32 * retain + low);
    Masks.DivModOf(b, 128, user, 64 * password + 32 * retain + low);
  }

  function Word2(n: nat): seq<byte> { [n / 256 % 256, n % 256] }

  function Optional(present: bool, bytes: seq<byte>): seq<byte> { if present then bytes else [] }

  /** Protocol, flags, keep-alive and client id. */
  function ConnectFixed(c: Connect): seq<byte>
    requires c.flags.willQos < 4
  {
    WrittenString(c.protocolName) + [c.protocolVersion, FlagsByte(c.flags)] + Word2(c.keepAlive) + WrittenString(c.clientId)
  }

  /** The strings that are there if their flag is set. */
  function ConnectOptional(c: Connect): seq<byte>
  {
    Optional(c.flags.will, WrittenString(c.willTopic)) + Optional(c.flags.will, WrittenString(c.willMessage))
    + Optional(c.flags.usernameFollows, WrittenString(c.username))
    + Optional(c.flags.passwordFollows, WrittenString(c.password))
  }

  function ConnectBody(c: Connect): seq<byte>
    requires c.flags.willQos < 4
  {
    ConnectFixed(c) + ConnectOptional(c)
  }

  predicate Writable(m: Value) { CommonOk(m.common) && m.connect.flags.willQos < 4 }

  /** The variable part; nothing for the kinds the serialiser does not know (it then reports an error). */
  function Body(m: Value): seq<byte>
    requires Writable(m)
  {
    if m.common.kind == PUBLISH then WrittenString(m.publish.topicName) + m.publish.content
    else if m.common.kind == SUBACK then Word2(m.suback.messageId) + [m.suback.returnCode]
    else if m.common.kind == CONNECT then ConnectBody(m.connect)
    else if m.common.kind == CONNACK then [m.connack.unused, m.connack.returnCode]
    else []
  }

  predicate Known(kind: nat) { kind == PUBLISH || kind == SUBACK || kind == CONNECT || kind == CONNACK }

  function Bytes(m: Value): seq<byte>
    requires Writable(m)
  {
    [HeaderByte(m.common)] + EncodeLength(m.common.length) + Body(m)
  }

  /** mqtt_serialiser_size. */
  function Size(m: Value): nat
  {
    1 + LengthSize(m.common.length) + BodySize(m)
  }

  function BodySize(m: Value): nat
  {
    if m.common.kind == PUBLISH then 2 + |m.publish.topicName| + |m.publish.content|
    else if m.common.kind == SUBACK then 3
    else if m.common.kind == CONNECT then
      8 + |m.connect.protocolName| + |m.connect.clientId|
      + (if m.connect.flags.usernameFollows then 2 + |m.connect.username| else 0)
      + (if m.connect.flags.passwordFollows then 2 + |m.connect.password| else 0)
      + (if m.connect.flags.will then 4 + |m.connect.willTopic| + |m.connect.willMessage| else 0)
    else if m.common.kind == CONNACK then 2
    else 0
  }

  lemma BodySizeExact(m: Value)
    requires Writable(m)
    ensures |Body(m)| == BodySize(m)
  {
  }

  /** The buffer that is allocated by the computed size is filled exactly, unless the length is past the maximum. */
  lemma SizeExact(m: Value)
    requires Writable(m)
    ensures |Bytes(m)| == Size(m) <==> m.common.length <= MAX_LENGTH
  {
    BodySizeExact(m);
    LengthSizeExact(m.common.length);
  }

  method SerialiserSize(message: Message) returns (len: nat)
    ensures len == Size(message.Get())
  {
    len := 1;
    if message.common.length <= 127 {
      len := len + 1;
    } else if message.common.length <= 16383 {
      len := len + 2;
    } else if message.common.length <= 2097151 {
      len := len + 3;
    } else if message.common.length <= 268435455 {
      len := len + 4;
    }
    if message.common.kind == PUBLISH {
      len := len + 2;
      len := len + |message.publish.topicName|;
      len := len + |message.publish.content|;
    } else if message.common.kind == SUBACK {
      len := len + 3;
    } else if message.common.kind == CONNECT {
      len := len + 8;
      len := len + |message.connect.protocolName|;
      len := len + |message.connect.clientId|;
      if message.connect.flags.usernameFollows {
        len := len + 2;
        len := len + |message.connect.username|;
      }
      if message.connect.flags.passwordFollows {
        len := len + 2;
        len := len + |message.connect.password|;
      }
      if message.connect.flags.will {
        len := len + 4;
        len := len + |message.connect.willTopic|;
        len := len + |message.connect.willMessage|;
      }
    } else if message.common.kind == CONNACK {
      len := len + 2;
    }
  }

  // ---------- the writer ----------

  /** The buffer holds `written` in front and is otherwise as it was. */
  twostate predicate Written(buffer: array<byte>, new written: seq<byte>)
    reads buffer
  {
    && |written| <= buffer.Length
    && buffer[..|written|] == written
    && forall i | |written| <= i < buffer.Length :: buffer[i] == old(buffer[i])
  }

  method PutByte(buffer: array<byte>, offset: nat, b: byte, ghost before: seq<byte>) returns (next: nat)
    requires offset < buffer.Length && buffer[..offset] == before
    modifies buffer
    ensures next == offset + 1 && Written(buffer, before + [b])
  {
    buffer[offset] := b;
    next := offset + 1;
  }

  /** memcpy of a whole field. */
  method PutBytes(buffer: array<byte>, offset: nat, bytes: seq<byte>, ghost before: seq<byte>) returns (next: nat)
    requires offset + |bytes| <= buffer.Length && buffer[..offset] == before
    modifies buffer
    ensures next == offset + |bytes| && Written(buffer, before + bytes)
  {
    var i := 0;
    while i < |bytes|
      invariant 0 <= i <= |bytes|
      invariant Written(buffer, before + bytes[..i])
    {
      var at := PutByte(buffer, offset + i, bytes[i], before + bytes[..i]);
      assert before + bytes[..i + 1] == (before + bytes[..i]) + [bytes[i]];
      i := i + 1;
    }
    next := offset + |bytes|;
  }

  method PutString(buffer: array<byte>, offset: nat, s: seq<byte>, ghost before: seq<byte>) returns (next: nat)
    requires offset + 2 + |s| <= buffer.Length && buffer[..offset] == before
    modifies buffer
    ensures next == offset + 2 + |s| && Written(buffer, before + WrittenString(s))
  {
    ghost var hi, lo := |s| / 255 % 256, |s| % 256;
    next := PutByte(buffer, offset, |s| / 255 % 256, before);
    next := PutByte(buffer, next, |s| % 256, before + [hi]);
    next := PutBytes(buffer, next, s, before + [hi] + [lo]);
    assert before + [hi] + [lo] + s == before + WrittenString(s);
  }

  method PutLength(buffer: array<byte>, offset: nat, length: nat, ghost before: seq<byte>) returns (next: nat)
    requires offset + |EncodeLength(length)| <= buffer.Length && buffer[..offset] == before
    modifies buffer
    ensures next == offset + |EncodeLength(length)| && Written(buffer, before + EncodeLength(length))
  {
    next := offset;
    var remaining := length;
    var more := true;
    ghost var done: seq<byte> := [];
    assert before + [] == before;
    while more
      invariant next == offset + |done| <= buffer.Length && Written(buffer, before + done)
      invariant EncodeLength(length) == done + if more then EncodeLength(remaining) else []
      decreases more, remaining
    {
      ghost var was := remaining;
      var b := remaining % 128;
      remaining := remaining / 128;
      if remaining > 0 {
        b := b + 128;
      }
      next := PutByte(buffer, next, b, before + done);
      more := remaining > 0;
      LengthRound(was, done, b);
      assert before + (done + [b]) == (before + done) + [b];
      done := done + [b];
    }
  }

  lemma LengthRound(remaining: nat, done: seq<byte>, b: byte)
    requires b == if remaining / 128 > 0 then remaining % 128 + 128 else remaining % 128
    ensures done + EncodeLength(remaining) ==
            (done + [b]) + if remaining / 128 > 0 then EncodeLength(remaining / 128) else []
  {
  }

  datatype SerialiserRc = SerialiserError | SerialiserSuccess

  /** mqtt_serialiser_write: the buffer gets exactly the message's bytes, from its start and without a gap. */
  method SerialiserWrite(message: Message, buffer: array<byte>) returns (rc: SerialiserRc)
    requires Writable(message.Get()) && |Bytes(message.Get())| <= buffer.Length
    modifies buffer
    ensures Written(buffer, Bytes(message.Get()))
    ensures rc == if Known(message.common.kind) then SerialiserSuccess else SerialiserError
  {
    ghost var m := message.Get();
    ghost var head := [HeaderByte(m.common)] + EncodeLength(m.common.length);
    assert Bytes(m) == head + Body(m);
    var offset := PutByte(buffer, 0, HeaderByte(message.common), []);
    offset := PutLength(buffer, offset, message.common.length, [] + [HeaderByte(m.common)]);
    assert [] + [HeaderByte(m.common)] + EncodeLength(m.common.length) == head;
    offset := PutBody(message, buffer, offset, head);
    return if Known(message.common.kind) then SerialiserSuccess else SerialiserError;
  }

  /** The variable part (broker/mqtt.c:451-507). */
  method PutBody(message: Message, buffer: array<byte>, offset: nat, ghost head: seq<byte>) returns (next: nat)
    requires Writable(message.Get()) && offset + |Body(message.Get())| <= buffer.Length && buffer[..offset] == head
    modifies buffer
    ensures next == offset + |Body(message.Get())| && Written(buffer, head + Body(message.Get()))
  {
    if message.common.kind == PUBLISH {
      next := PutPublish(buffer, offset, message.publish, head);
    } else if message.common.kind == SUBACK {
      next := PutSuback(buffer, offset, message.suback, head);
    } else if message.common.kind == CONNECT {
      next := PutConnect(buffer, offset, message.connect, head);
    } else if message.common.kind == CONNACK {
      next := PutConnack(buffer, offset, message.connack, head);
    } else {
      next := offset;
      assert head + [] == head;
    }
  }

  method PutPublish(buffer: array<byte>, offset: nat, p: Publish, ghost before: seq<byte>) returns (next: nat)
    requires offset + 2 + |p.topicName| + |p.content| <= buffer.Length && buffer[..offset] == before
    modifies buffer
    ensures next == offset + 2 + |p.topicName| + |p.content|
    ensures Written(buffer, before + (WrittenString(p.topicName) + p.content))
  {
    next := PutString(buffer, offset, p.topicName, before);
    next := PutBytes(buffer, next, p.content, before + WrittenString(p.topicName));
    assert before + WrittenString(p.topicName) + p.content == before + (WrittenString(p.topicName) + p.content);
  }

  method PutSuback(buffer: array<byte>, offset: nat, s: Suback, ghost before: seq<byte>) returns (next: nat)
    requires offset + 3 <= buffer.Length && buffer[..offset] == before
    modifies buffer
    ensures next == offset + 3 && Written(buffer, before + (Word2(s.messageId) + [s.returnCode]))
  {
    next := PutWord(buffer, offset, s.messageId, before);
    next := PutByte(buffer, next, s.returnCode, before + Word2(s.messageId));
    assert before + Word2(s.messageId) + [s.returnCode] == before + (Word2(s.messageId) + [s.returnCode]);
  }

  method PutConnack(buffer: array<byte>, offset: nat, c: Connack, ghost before: seq<byte>) returns (next: nat)
    requires offset + 2 <= buffer.Length && buffer[..offset] == before
    modifies buffer
    ensures next == offset + 2 && Written(buffer, before + [c.unused, c.returnCode])
  {
    next := PutByte(buffer, offset, c.unused, before);
    next := PutByte(buffer, next, c.returnCode, before + [c.unused]);
    assert before + [c.unused] + [c.returnCode] == before + [c.unused, c.returnCode];
  }

  method PutWord(buffer: array<byte>, offset: nat, n: nat, ghost before: seq<byte>) returns (next: nat)
    requires offset + 2 <= buffer.Length && buffer[..offset] == before
    modifies buffer
    ensures next == offset + 2 && Written(buffer, before + Word2(n))
  {
    next := PutByte(buffer, offset, n / 256 % 256, before);
    next := PutByte(buffer, next, n % 256, before + [n / 256 % 256]);
    assert before + [n / 256 % 256] + [n % 256] == before + Word2(n);
  }

  /** A string that is only written if its flag is set. */
  method PutOptional(buffer: array<byte>, offset: nat, present: bool, s: seq<byte>, ghost before: seq<byte>)
    returns (next: nat)
    requires offset + |Optional(present, WrittenString(s))| <= buffer.Length && buffer[..offset] == before
    modifies buffer
    ensures next == offset + |Optional(present, WrittenString(s))|
    ensures Written(buffer, before + Optional(present, WrittenString(s)))
  {
    next := offset;
    if present {
      next := PutString(buffer, next, s, before);
    } else {
      assert before + [] == before;
    }
  }

  lemma Concat4(w: seq<byte>, a: seq<byte>, b: seq<byte>, c: seq<byte>, d: seq<byte>)
    ensures w + a + b + c + d == w + (a + b + c + d)
  {
  }

  method PutConnectFixed(buffer: array<byte>, offset: nat, c: Connect, ghost before: seq<byte>) returns (next: nat)
    requires c.flags.willQos < 4 && offset + |ConnectFixed(c)| <= buffer.Length && buffer[..offset] == before
    modifies buffer
    ensures next == offset + |ConnectFixed(c)| && Written(buffer, before + ConnectFixed(c))
  {
    next := PutString(buffer, offset, c.protocolName, before);
    ghost var w := before + WrittenString(c.protocolName);
    next := PutByte(buffer, next, c.protocolVersion, w);
    next := PutByte(buffer, next, FlagsByte(c.flags), w + [c.protocolVersion]);
    ghost var two := [c.protocolVersion, FlagsByte(c.flags)];
    assert w + [c.protocolVersion] + [FlagsByte(c.flags)] == w + two;
    next := PutWord(buffer, next, c.keepAlive, w + two);
    next := PutString(buffer, next, c.clientId, w + two + Word2(c.keepAlive));
    Concat4(before, WrittenString(c.protocolName), two, Word2(c.keepAlive), WrittenString(c.clientId));
  }

  method PutConnectOptional(buffer: array<byte>, offset: nat, c: Connect, ghost before: seq<byte>) returns (next: nat)
    requires offset + |ConnectOptional(c)| <= buffer.Length && buffer[..offset] == before
    modifies buffer
    ensures next == offset + |ConnectOptional(c)| && Written(buffer, before + ConnectOptional(c))
  {
    ghost var wt := Optional(c.flags.will, WrittenString(c.willTopic));
    ghost var wm := Optional(c.flags.will, WrittenString(c.willMessage));
    ghost var un := Optional(c.flags.usernameFollows, WrittenString(c.username));
    ghost var pw := Optional(c.flags.passwordFollows, WrittenString(c.password));
    assert |ConnectOptional(c)| == |wt| + |wm| + |un| + |pw|;
    next := PutOptional(buffer, offset, c.flags.will, c.willTopic, before);
    next := PutOptional(buffer, next, c.flags.will, c.willMessage, before + wt);
    next := PutOptional(buffer, next, c.flags.usernameFollows, c.username, before + wt + wm);
    next := PutOptional(buffer, next, c.flags.passwordFollows, c.password, before + wt + wm + un);
    Concat4(before, wt, wm, un, pw);
  }

  /** The CONNECT case (broker/mqtt.c:463-495). */
  method PutConnect(buffer: array<byte>, offset: nat, c: Connect, ghost before: seq<byte>) returns (next: nat)
    requires c.flags.willQos < 4 && offset + |ConnectBody(c)| <= buffer.Length && buffer[..offset] == before
    modifies buffer
    ensures next == offset + |ConnectBody(c)| && Written(buffer, before + ConnectBody(c))
  {
    next := PutConnectFixed(buffer, offset, c, before);
    next := PutConnectOptional(buffer, next, c, before + ConnectFixed(c));
    assert before + ConnectFixed(c) + ConnectOptional(c) == before + ConnectBody(c);
  }
}
