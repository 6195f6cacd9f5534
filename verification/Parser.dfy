/** mqtt_parser_execute: a state machine that walks a packet's body, checked against the layouts of the packets. */
module Parser {
  import opened Wire
  import opened Messages

  datatype PState =
    | Initial | VariableHeader
    | ConnectStart | ProtocolName | ProtocolVersion | ConnectFlags | KeepAlive | ClientIdentifier
    | WillTopic | WillMessage | Username | Password
    | ConnackStart
    | PublishStart | TopicName | MessageId | PublishMessage
    | SubscribeStart | SubscribeTopicName
    | Unused

  datatype Rc = Error | Incomplete | Done

  datatype ParserError = NoError | InvalidState | InvalidMessageId

  /** Where a parse stands: the parser's state, *nread and the message being filled. */
  datatype Config = Config(state: PState, nread: nat, m: Value)

  datatype Outcome = Go(c: Config) | Stop(rc: Rc, c: Config)

  const MOD32: nat := 0x1_0000_0000

  /** The CONNECT flags as they are read: will_qos is taken from the retain bit. */
  function ReadFlags(f: byte): Flags
  {
    Flags(f / 128 % 2 == 1, f / 64 % 2 == 1, f / 32 % 2 == 1, f / 32 % 2 * 2, f / 4 % 2 == 1, f / 2 % 2 == 1)
  }

  predicate HasMessageId(c: Common) { 0 < c.qos < 3 }

  /** One round of the switch. Data past the end is read in one place only (SubscribeTopicName); `beyond` is what is there. */
  function Step(c: Config, data: seq<byte>, beyond: byte): (o: Outcome)
    requires c.nread <= |data|
  {
    var m, at := c.m, c.nread;
    match c.state
    case Initial =>
      if m.common.kind == CONNECT then Go(c.(state := ConnectStart))
      else if m.common.kind == CONNACK then Go(c.(state := ConnackStart))
      else if m.common.kind == PUBLISH then Go(c.(state := PublishStart))
      else if m.common.kind == SUBSCRIBE then Go(c.(state := SubscribeStart))
      else if m.common.kind == PINGREQ || m.common.kind == DISCONNECT then Stop(Done, c)
      else Stop(Error, c)
    case VariableHeader => if m.common.kind == CONNECT then Go(c.(state := ProtocolName)) else Go(c)
    case ConnectStart => Go(c.(state := ProtocolName))
    case ProtocolName => StringStep(c, data, ProtocolVersion, s => m.connect.(protocolName := s))
    case ProtocolVersion =>
      if |data| - at < 1 then Stop(Incomplete, c)
      else Go(Config(ConnectFlags, at + 1, m.(connect := m.connect.(protocolVersion := data[at]))))
    case ConnectFlags =>
      if |data| - at < 1 then Stop(Incomplete, c)
      else Go(Config(KeepAlive, at + 1, m.(connect := m.connect.(flags := ReadFlags(data[at])))))
    case KeepAlive =>
      if |data| - at < 2 then Stop(Incomplete, c)
      else Go(Config(ClientIdentifier, at + 2, m.(connect := m.connect.(keepAlive := Word(data[at], data[at + 1])))))
    case ClientIdentifier => StringStep(c, data, WillTopic, s => m.connect.(clientId := s))
    case WillTopic =>
      if m.connect.flags.will then StringStep(c, data, WillMessage, s => m.connect.(willTopic := s))
      else Go(c.(state := WillMessage))
    case WillMessage =>
      if m.connect.flags.will then StringStep(c, data, Username, s => m.connect.(willMessage := s))
      else Go(c.(state := Username))
    case Username =>
      if m.connect.flags.usernameFollows then StringStep(c, data, Password, s => m.connect.(username := s))
      else Go(c.(state := Password))
    case Password =>
      if !m.connect.flags.passwordFollows then Stop(Done, c.(state := Initial))
      else
        var o := StringStep(c, data, Initial, s => m.connect.(password := s));
        if o.Go? then Stop(Done, o.c) else o
    case ConnackStart =>
      if |data| - at < 2 then Stop(Incomplete, c)
      else Stop(Done, Config(Initial, at + 2, m.(connack := Connack(data[at], data[at + 1]))))
    case PublishStart => Go(c.(state := TopicName))
    case TopicName =>
      var r := ReadString(data, at);
      if r.Truncated? then Stop(Incomplete, c)
      else Go(Config(MessageId, r.next, m.(publish := m.publish.(topicName := r.s))))
    case MessageId =>
      if |data| - at < 2 then Stop(Incomplete, c)
      else if HasMessageId(m.common) then
        Go(Config(PublishMessage, at + 2, m.(publish := m.publish.(messageId := Word(data[at], data[at + 1])))))
      else Go(Config(PublishMessage, at, m.(publish := m.publish.(messageId := 0))))
    case PublishMessage =>
      var length := ContentLength(m);
      if |data| - at < length then Stop(Incomplete, c)
      else Stop(Done, Config(Initial, at + length, m.(publish := m.publish.(content := data[at..at + length]))))
    case SubscribeStart =>
      if |data| - at < 2 then Stop(Incomplete, c)
      else Go(Config(SubscribeTopicName, at + 2, m.(subscribe := m.subscribe.(messageId := Word(data[at], data[at + 1])))))
    case SubscribeTopicName =>
      var r := ReadString(data, at);
      if r.Truncated? then Stop(Incomplete, c)
      else
        var qos := if r.next < |data| then data[r.next] else beyond;
        Stop(Done, Config(Initial, r.next + 1, m.(subscribe := m.subscribe.(topicName := r.s, qos := qos))))
    case Unused => Stop(Error, c)
  }

  /** READ_STRING into a field of a CONNECT. */
  function StringStep(c: Config, data: seq<byte>, next: PState, store: seq<byte> -> Connect): (o: Outcome)
    requires c.nread <= |data|
    ensures o.Go? ==> c.nread + 2 <= o.c.nread <= |data| && o.c.state == next && o.c.m.common == c.m.common
    ensures o.Stop? ==> o == Stop(Incomplete, c)
  {
    var r := ReadString(data, c.nread);
    if r.Truncated? then Stop(Incomplete, c)
    else Go(Config(next, r.next, c.m.(connect := store(r.s))))
  }

  /** msg_len: what the fixed header's length leaves, in 32-bit unsigned arithmetic. */
  function ContentLength(m: Value): nat
  {
    (m.common.length - |m.publish.topicName| - 2 - (if HasMessageId(m.common) then 2 else 0)) % MOD32
  }

  // ---------- termination and bounds ----------

  function Rank(s: PState): nat
  {
    match s
    case Initial => 13
    case VariableHeader => 12
    case ConnectStart => 11
    case ProtocolName => 10
    case ProtocolVersion => 9
    case ConnectFlags => 8
    case KeepAlive => 7
    case ClientIdentifier => 6
    case WillTopic => 5
    case WillMessage => 4
    case Username => 3
    case Password => 2
    case PublishStart => 4
    case TopicName => 3
    case MessageId => 2
    case SubscribeStart => 2
    case _ => 1
  }

  /** Every state moves on, but for one that nothing leads to. */
  predicate Live(c: Config) { c.state.VariableHeader? ==> c.m.common.kind == CONNECT }

  /** What one round may do to state and position. */
  predicate Bounded(c: Config, o: Outcome, size: nat) {
    && o.c.m.common == c.m.common
    && (o.Go? ==> Rank(o.c.state) < Rank(c.state) && Live(o.c) && c.nread <= o.c.nread <= size)
    && (o.Stop? ==> o.c.nread <= size || (c.state.SubscribeTopicName? && o.c.nread == size + 1))
  }

  lemma StringBound(c: Config, data: seq<byte>, beyond: byte)
    requires c.nread <= |data|
    requires var s := c.state;
      s.ProtocolName? || s.ClientIdentifier? || s.WillTopic? || s.WillMessage? || s.Username? || s.Password?
    ensures Bounded(c, Step(c, data, beyond), |data|)
  {
  }

  lemma ConnectBound(c: Config, data: seq<byte>, beyond: byte)
    requires c.nread <= |data| && Live(c)
    requires var s := c.state; s.VariableHeader? || s.ConnectStart? || s.ProtocolVersion? || s.ConnectFlags? || s.KeepAlive?
    ensures Bounded(c, Step(c, data, beyond), |data|)
  {
  }

  lemma PublishBound(c: Config, data: seq<byte>, beyond: byte)
    requires c.nread <= |data|
    requires var s := c.state; s.PublishStart? || s.TopicName? || s.MessageId? || s.PublishMessage?
    ensures Bounded(c, Step(c, data, beyond), |data|)
  {
  }

  lemma StepBound(c: Config, data: seq<byte>, beyond: byte)
    requires c.nread <= |data| && Live(c)
    ensures Bounded(c, Step(c, data, beyond), |data|)
  {
    var s := c.state;
    if s.ProtocolName? || s.ClientIdentifier? || s.WillTopic? || s.WillMessage? || s.Username? || s.Password? {
      StringBound(c, data, beyond);
    } else if s.VariableHeader? || s.ConnectStart? || s.ProtocolVersion? || s.ConnectFlags? || s.KeepAlive? {
      ConnectBound(c, data, beyond);
    } else if s.PublishStart? || s.TopicName? || s.MessageId? || s.PublishMessage? {
      PublishBound(c, data, beyond);
    }
  }

  /** The loop: from any live state it ends. */
  function Run(c: Config, data: seq<byte>, beyond: byte): (o: Outcome)
    requires c.nread <= |data| && Live(c)
    ensures o.Stop?
    decreases Rank(c.state)
  {
    StepBound(c, data, beyond);
    var o := Step(c, data, beyond);
    if o.Stop? then o else Run(o.c, data, beyond)
  }

  /** A parse as loop_read starts it. */
  function Parse(m: Value, data: seq<byte>, beyond: byte): Outcome
  {
    Run(Config(Initial, 0, m), data, beyond)
  }

  /** The states of one kind of packet. */
  predicate StateOf(kind: nat, s: PState)
  {
    match s
    case Initial => true
    case VariableHeader | ConnectStart | ProtocolName | ProtocolVersion | ConnectFlags | KeepAlive
       | ClientIdentifier | WillTopic | WillMessage | Username | Password => kind == CONNECT
    case ConnackStart => kind == CONNACK
    case PublishStart | TopicName | MessageId | PublishMessage => kind == PUBLISH
    case SubscribeStart | SubscribeTopicName => kind == SUBSCRIBE
    case Unused => false
  }

  /** Reading never leaves the data, except that a SUBSCRIBE may read one byte past its end. */
  lemma {:induction false} RunInBounds(c: Config, data: seq<byte>, beyond: byte)
    requires c.nread <= |data| && StateOf(c.m.common.kind, c.state)
    ensures var o := Run(c, data, beyond);
            c.nread <= o.c.nread && o.c.nread <= if c.m.common.kind == SUBSCRIBE then |data| + 1 else |data|
    decreases Rank(c.state)
  {
    StepBound(c, data, beyond);
    var o := Step(c, data, beyond);
    if o.Go? {
      RunInBounds(o.c, data, beyond);
    }
  }

  // ---------- the method ----------

  class ParserState {
    var state: PState
    var error: ParserError

    constructor ()
      ensures state == Initial && error == NoError
    {
      state, error := Initial, NoError;
    }
  }

  /** What a call leaves in parser->error. */
  function ErrorAfter(before: ParserError, last: Outcome): ParserError
  {
    if last.Stop? && last.rc == Error then (if last.c.state == Initial then InvalidMessageId else InvalidState) else before
  }

  /** READ_STRING (broker/mqtt.c:112-127). */
  method ReadStringAt(data: seq<byte>, at: nat) returns (complete: bool, s: seq<byte>, next: nat)
    requires at <= |data|
    ensures ReadString(data, at) == if complete then Text(s, next) else Truncated
  {
    complete, s, next := false, [], at;
    if |data| - at < 2 {
      return;
    }
    var length := Word(data[at], data[at + 1]);
    if |data| - at - 2 < length {
      return;
    }
    complete, s, next := true, data[at + 2..at + 2 + length], at + 2 + length;
  }

  /** The CONNECT cases of the switch. */
  method ConnectRound(parser: ParserState, message: Message, data: seq<byte>, nread: nat, ghost beyond: byte)
    returns (stop: bool, rc: Rc, next: nat)
    requires nread <= |data| && StateOf(CONNECT, parser.state) && !parser.state.Initial?
    requires message.common.kind == CONNECT
    modifies parser`state, message`connect
    ensures var after := Config(parser.state, next, message.Get());
            Step(old(Config(parser.state, nread, message.Get())), data, beyond) == if stop then Stop(rc, after) else Go(after)
  {
    stop, rc, next := false, Done, nread;
    if parser.state == VariableHeader || parser.state == ConnectStart {
      parser.state := ProtocolName;
    } else if parser.state == ProtocolVersion {
      if |data| - nread < 1 {
        return true, Incomplete, nread;
      }
      message.connect := message.connect.(protocolVersion := data[nread]);
      next := nread + 1;
      parser.state := ConnectFlags;
    } else if parser.state == ConnectFlags {
      if |data| - nread < 1 {
        return true, Incomplete, nread;
      }
      message.connect := message.connect.(flags := ReadFlags(data[nread]));
      next := nread + 1;
      parser.state := KeepAlive;
    } else if parser.state == KeepAlive {
      if |data| - nread < 2 {
        return true, Incomplete, nread;
      }
      message.connect := message.connect.(keepAlive := Word(data[nread], data[nread + 1]));
      next := nread + 2;
      parser.state := ClientIdentifier;
    } else {
      stop, rc, next := ConnectStringRound(parser, message, data, nread, beyond);
    }
  }

  method ConnectStringRound(parser: ParserState, message: Message, data: seq<byte>, nread: nat, ghost beyond: byte)
    returns (stop: bool, rc: Rc, next: nat)
    requires nread <= |data|
    requires parser.state in {ProtocolName, ClientIdentifier, WillTopic, WillMessage, Username, Password}
    modifies parser`state, message`connect
    ensures var after := Config(parser.state, next, message.Get());
            Step(old(Config(parser.state, nread, message.Get())), data, beyond) == if stop then Stop(rc, after) else Go(after)
  {
    stop, rc, next := false, Done, nread;
    var flags := message.connect.flags;
    var wanted := match parser.state
      case WillTopic | WillMessage => flags.will
      case Username => flags.usernameFollows
      case Password => flags.passwordFollows
      case _ => true;
    var s: seq<byte> := [];
    if wanted {
      var complete;
      complete, s, next := ReadStringAt(data, nread);
      if !complete {
        return true, Incomplete, nread;
      }
    }
    match parser.state {
      case ProtocolName =>
        message.connect := message.connect.(protocolName := s);
        parser.state := ProtocolVersion;
      case ClientIdentifier =>
        message.connect := message.connect.(clientId := s);
        parser.state := WillTopic;
      case WillTopic =>
        if wanted {
          message.connect := message.connect.(willTopic := s);
        }
        parser.state := WillMessage;
      case WillMessage =>
        if wanted {
          message.connect := message.connect.(willMessage := s);
        }
        parser.state := Username;
      case Username =>
        if wanted {
          message.connect := message.connect.(username := s);
        }
        parser.state := Password;
      case Password =>
        if wanted {
          message.connect := message.connect.(password := s);
        }
        parser.state := Initial;
        stop := true;
    }
  }

  /** The PUBLISH cases of the switch. */
  method PublishRound(parser: ParserState, message: Message, data: seq<byte>, nread: nat, ghost beyond: byte)
    returns (stop: bool, rc: Rc, next: nat)
    requires nread <= |data| && StateOf(PUBLISH, parser.state) && !parser.state.Initial?
    modifies parser`state, message`publish
    ensures var after := Config(parser.state, next, message.Get());
            Step(old(Config(parser.state, nread, message.Get())), data, beyond) == if stop then Stop(rc, after) else Go(after)
  {
    stop, rc, next := false, Done, nread;
    match parser.state {
      case PublishStart => parser.state := TopicName;
      case TopicName =>
        var complete, s, after := ReadStringAt(data, nread);
        if !complete {
          return true, Incomplete, nread;
        }
        message.publish := message.publish.(topicName := s);
        next := after;
        parser.state := MessageId;
      case MessageId =>
        if |data| - nread < 2 {
          return true, Incomplete, nread;
        }
        message.publish := message.publish.(messageId := 0);
        if message.common.qos > 0 && message.common.qos < 3 {
          message.publish := message.publish.(messageId := Word(data[nread], data[nread + 1]));
          next := nread + 2;
        }
        parser.state := PublishMessage;
      case PublishMessage =>
        var length: int := message.common.length - |message.publish.topicName| - 2;
        if message.common.qos > 0 && message.common.qos < 3 {
          length := length - 2;
        }
        length := length % MOD32;
        if |data| - nread < length {
          return true, Incomplete, nread;
        }
        message.publish := message.publish.(content := data[nread..nread + length]);
        next := nread + length;
        parser.state := Initial;
        stop := true;
    }
  }

  /** The remaining cases. */
  method OtherRound(parser: ParserState, message: Message, data: seq<byte>, nread: nat, beyond: byte)
    returns (stop: bool, rc: Rc, next: nat)
    requires nread <= |data|
    requires parser.state in {Initial, ConnackStart, SubscribeStart, SubscribeTopicName, Unused}
    modifies parser, message`connack, message`subscribe
    ensures var after := Config(parser.state, next, message.Get());
            Step(old(Config(parser.state, nread, message.Get())), data, beyond) == if stop then Stop(rc, after) else Go(after)
    ensures parser.error == ErrorAfter(old(parser.error), Step(old(Config(parser.state, nread, message.Get())), data, beyond))
  {
    stop, rc, next := false, Done, nread;
    match parser.state {
      case Initial =>
        if message.common.kind == CONNECT {
          parser.state := ConnectStart;
        } else if message.common.kind == CONNACK {
          parser.state := ConnackStart;
        } else if message.common.kind == PUBLISH {
          parser.state := PublishStart;
        } else if message.common.kind == SUBSCRIBE {
          parser.state := SubscribeStart;
        } else if message.common.kind == PINGREQ || message.common.kind == DISCONNECT {
          stop := true;
        } else {
          parser.error := InvalidMessageId;
          stop, rc := true, Error;
        }
      case ConnackStart =>
        if |data| - nread < 2 {
          return true, Incomplete, nread;
        }
        message.connack := Connack(data[nread], data[nread + 1]);
        next := nread + 2;
        parser.state := Initial;
        stop := true;
      case SubscribeStart =>
        if |data| - nread < 2 {
          return true, Incomplete, nread;
        }
        message.subscribe := message.subscribe.(messageId := Word(data[nread], data[nread + 1]));
        next := nread + 2;
        parser.state := SubscribeTopicName;
      case SubscribeTopicName =>
        var complete, s, after := ReadStringAt(data, nread);
        if !complete {
          return true, Incomplete, nread;
        }
        message.subscribe := message.subscribe.(topicName := s);
        message.subscribe := message.subscribe.(qos := if after < |data| then data[after] else beyond);
        next := after + 1;
        parser.state := Initial;
        stop := true;
      case Unused =>
        parser.error := InvalidState;
        stop, rc := true, Error;
    }
  }

  /** The switch. */
  method Round(parser: ParserState, message: Message, data: seq<byte>, nread: nat, beyond: byte)
    returns (stop: bool, rc: Rc, next: nat)
    requires nread <= |data| && StateOf(message.common.kind, parser.state)
    modifies parser, message`connect, message`connack, message`publish, message`subscribe
    ensures var after := Config(parser.state, next, message.Get());
            Step(old(Config(parser.state, nread, message.Get())), data, beyond) == if stop then Stop(rc, after) else Go(after)
    ensures parser.error == if stop && rc == Error then InvalidMessageId else old(parser.error)
  {
    if parser.state != Initial && StateOf(CONNECT, parser.state) {
      stop, rc, next := ConnectRound(parser, message, data, nread, beyond);
    } else if parser.state != Initial && StateOf(PUBLISH, parser.state) {
      stop, rc, next := PublishRound(parser, message, data, nread, beyond);
    } else {
      stop, rc, next := OtherRound(parser, message, data, nread, beyond);
    }
  }

  /** mqtt_parser_execute, called as loop_read calls it. */
  method Execute(parser: ParserState, message: Message, data: seq<byte>, beyond: byte) returns (rc: Rc, nread: nat)
    requires parser.state == Initial
    modifies parser, message`connect, message`connack, message`publish, message`subscribe
    ensures var o := Parse(old(message.Get()), data, beyond);
            && Stop(rc, Config(parser.state, nread, message.Get())) == o
    ensures parser.error == if rc == Error then InvalidMessageId else old(parser.error)
  {
    nread := 0;
    ghost var o := Parse(message.Get(), data, beyond);
    ghost var kind := message.common.kind;
    while true
      invariant nread <= |data| && message.common == old(message.common)
      invariant StateOf(kind, parser.state) && parser.error == old(parser.error)
      invariant Run(Config(parser.state, nread, message.Get()), data, beyond) == o
      decreases Rank(parser.state)
    {
      StepBound(Config(parser.state, nread, message.Get()), data, beyond);
      var stop;
      stop, rc, nread := Round(parser, message, data, nread, beyond);
      if stop {
        return;
      }
    }
  }
}
