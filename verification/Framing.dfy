/** loop_read: a decoder that may stop at any byte and is called again when there is more to read, with the fields of
    struct client. Its state is that of the reading steps after the events it has met. */
module Framing {
  import opened Wire
  import opened Messages
  import opened Parser
  import opened Frames
  import opened RoundTrip
  import opened Reading

  /** What recv may answer. */
  datatype Recv = Got(bytes: seq<byte>) | Nothing(why: Why)

  /** recv on a non-blocking socket: any number of the bytes asked for, or one of the other answers, at any time. */
  method Receive(want: nat) returns (r: Recv)
    ensures r.Got? ==> 1 <= |r.bytes| <= want
  {
    var bytes: seq<byte> := *;
    if 1 <= |bytes| <= want {
      return Got(bytes);
    }
    var why: Why := *;
    r := Nothing(why);
  }

  /** What loop_read returns when recv gives nothing (broker/event_io.c:404-420). */
  function CodeOf(why: Why): int
  {
    match why
    case Eof => 0
    case Again => 1
    case Reset => 0
    case Failed => -3
  }

  /** From one script to the other, recv gave bytes only. */
  predicate BytesSince(before: seq<Event>, after: seq<Event>)
  {
    before <= after && forall i | |before| <= i < |after| :: after[i].Byte?
  }

  /** How a call ends that takes the script from before to after, kept or not. It has taken something, and nothing but
      bytes ahead of what it ended with. The result is -1 exactly if the connection is given up, which is at a byte;
      else 1 exactly if the call ended at a block, or with the last byte of a packet; 0 exactly if the peer had closed or
      reset the connection; and -3 exactly at any other failure of recv. */
  predicate Ends(before: seq<Event>, after: seq<Event>, kept: bool, rc: int)
  {
    && before < after && BytesSince(before, after[..|after| - 1])
    && var last := after[|after| - 1];
    && (!kept ==> last.Byte?)
    && (rc == -1 <==> !kept)
    && (rc == 1 <==> kept && (last.Byte? || last == Pause(Again)))
    && (rc == 0 <==> last == Pause(Eof) || last == Pause(Reset))
    && (rc == -3 <==> last == Pause(Failed))
  }

  /** What a call took, and whether loop_run goes on after it. */
  lemma EndsTaken(before: seq<Event>, taken: seq<Event>, kept: bool, rc: int)
    requires Ends(before, before + taken, kept, rc)
    ensures taken != [] && BytesSince([], taken[..|taken| - 1])
    ensures rc <= 0 <==> taken[|taken| - 1] in {Pause(Eof), Pause(Reset), Pause(Failed)} || !kept
  {
    var after := before + taken;
    var last := taken[|taken| - 1];
    assert after[|after| - 1] == last;
    assert last.Pause? ==> last.why.Eof? || last.why.Again? || last.why.Reset? || last.why.Failed?;
    forall i | 0 <= i < |taken| - 1 ensures taken[i].Byte? {
      assert taken[i] == after[..|after| - 1][|before| + i];
    }
  }

  class Connection {
    var remainingCount: int
    var remainingMult: nat
    var inPacket: Message?
    var inPayload: array?<byte>
    var inToProcess: nat
    var inCur: nat
    const parser: ParserState
    ghost var outside: Outside       // the bytes behind the buffers and the handler's answers of this connection
    ghost var script: seq<Event>     // what recv has given since the connection began, and where it gave nothing
    ghost var packets: seq<Packet>   // the packets handed to the parser

    constructor (ghost outside: Outside)
      ensures Valid() && this.outside == outside && script == [] && packets == []
      ensures fresh(parser) && inPacket == null && inPayload == null
    {
      remainingCount, remainingMult, inPacket, inPayload, inToProcess, inCur := 0, 0, null, null, 0, 0;
      parser := new ParserState();
      this.outside, script, packets := outside, [], [];
    }

    // ---------- the saved state ----------

    /** The part of the payload that is there. */
    ghost function Arrived(): seq<byte>
      reads this, inPayload
    {
      if inPayload != null && inCur <= inPayload.Length then inPayload[..inCur] else []
    }

    ghost function View(): Saved
      reads this, inPacket, inPayload
    {
      Saved(if inPacket == null then BLANK.common else inPacket.common, remainingMult, remainingCount, Arrived(), inToProcess)
    }

    /** Buffer and counters agree, and of the packet in progress only the fixed header is set. */
    ghost predicate BufferOk()
      reads this, inPacket, inPayload
    {
      && (inPacket != null ==> inPacket.Get() == Received(inPacket.common))
      && (inPayload == null ==> inToProcess == 0 && inCur == 0)
      && (inPayload != null ==> inCur + inToProcess == inPayload.Length)
    }

    ghost function After(): Served
      reads this
    {
      Serve(script, JudgeOf(outside))
    }

    /** The connection is the one after its script, and the next byte is for this. */
    ghost predicate At(p: Point)
      reads this, inPacket, inPayload
    {
      BufferOk() && (inPayload != null <==> inToProcess > 0) && After() == Kept(View(), p, packets)
    }

    /** Between two calls. */
    ghost predicate Valid()
      reads this, inPacket, inPayload
    {
      At(Resume(View()))
    }

    /** The last length byte has been read and remaining_count not yet turned positive. */
    ghost predicate LengthDone()
      reads this, inPacket, inPayload
    {
      && BufferOk() && inPacket != null && inPayload == null
      && var u := View().(count := -remainingCount, want := inPacket.common.length);
      After() == if u.want == 0 then Reading.Finish(u, packets, JudgeOf(outside)) else Kept(u, AtPayload, packets)
    }

    /** The packet is there and has not been handed on. */
    ghost predicate Complete()
      reads this, inPacket, inPayload
    {
      BufferOk() && inPacket != null && inToProcess == 0 && After() == Reading.Finish(View(), packets, JudgeOf(outside))
    }

    /** While the payload is read. */
    ghost predicate MidPayload()
      reads this, inPacket, inPayload
    {
      inPacket != null && if inToProcess > 0 then At(AtPayload) else Complete()
    }

    /** Neither the length nor its multiplier passes 28 bits, let alone the 32 of its type. */
    ghost predicate NoWrap()
      reads this, inPacket
    {
      remainingMult <= 0x1000_0000 && (inPacket != null ==> inPacket.common.length <= MAX_LENGTH)
    }

    lemma InBounds(p: Point)
      requires At(p)
      ensures NoWrap() && Ok(After())
    {
      ServeOk(script, JudgeOf(outside));
      Reading.NoWrap(script, JudgeOf(outside));
    }

    // ---------- the phases of loop_read ----------

    /** recv has given nothing: the call ends, and what is saved is what the next one begins with. */
    ghost method Wait(p: Point, why: Why)
      requires At(p)
      modifies this`script
      ensures Valid() && script == old(script) + [Pause(why)]
    {
      ServeNext(script, Pause(why), JudgeOf(outside));
      script := script + [Pause(why)];
    }

    /** The header byte (broker/event_io.c:395-423). */
    method ReadHeaderByte() returns (stop: bool, rc: int)
      requires Valid() && inPacket != null && inPacket.common.kind == 0
      modifies this`remainingMult, this`script, inPacket`common
      ensures stop ==> Valid() && Ends(old(script), script, true, rc)
      ensures !stop ==> At(if remainingCount <= 0 then AtLength else AtPayload) && BytesSince(old(script), script)
    {
      var r := Receive(1);
      if !r.Got? {
        Wait(AtHeader, r.why);
        return true, CodeOf(r.why);
      }
      ServeNext(script, Byte(r.bytes[0]), JudgeOf(outside));
      inPacket.common := ReadHeader(r.bytes[0], inPacket.common.length);
      remainingMult := 1;
      script := script + [Byte(r.bytes[0])];
      return false, 1;
    }

    /** (byte & 127) * remaining_mult. */
    static function Scaled(b: byte, mult: nat): nat
    {
      b % 128 * mult
    }

    /** One byte of the length (broker/event_io.c:431-439); the fifth one is refused. No sum passes 28 bits, whatever the
        input. */
    method TakeLengthByte(b: byte) returns (stop: bool)
      requires At(AtLength) && inPacket != null
      modifies this`remainingCount, this`remainingMult, this`script, inPacket`common
      ensures script == old(script) + [Byte(b)] && remainingCount == old(remainingCount) - 1
      ensures stop <==> remainingCount < -4
      ensures stop ==> After() == Dropped(packets)
      ensures !stop ==> if b >= 128 then At(AtLength) else LengthDone()
      ensures inPacket.common.length <= MAX_LENGTH && remainingMult <= 0x1000_0000
    {
      InBounds(AtLength);
      Reading.NoWrap(script, JudgeOf(outside));
      ServeNext(script, Byte(b), JudgeOf(outside));
      assert View().want == 0 && inPayload == null;
      ghost var w := Added(View(), b);
      remainingCount := remainingCount - 1;
      script := script + [Byte(b)];
      if remainingCount < -4 {
        return true;
      }
      inPacket.common := inPacket.common.(length := inPacket.common.length + Scaled(b, remainingMult));
      remainingMult := remainingMult * 128;
      assert View() == w;
      return false;
    }

    /** One round of the loop over the length (broker/event_io.c:425-459). */
    method LengthRound(ghost before: seq<Event>) returns (stop: bool, rc: int, more: bool)
      requires At(AtLength) && inPacket != null && BytesSince(before, script)
      modifies this`remainingCount, this`remainingMult, this`script, inPacket`common
      ensures NoWrap()
      ensures stop ==> Ends(before, script, rc != -1, rc) && if rc == -1 then After() == Dropped(packets) else Valid()
      ensures !stop ==> before < script && BytesSince(before, script) && if more then At(AtLength) else LengthDone()
      ensures !stop ==> -4 <= remainingCount == old(remainingCount) - 1
    {
      InBounds(AtLength);
      var r := Receive(1);
      if !r.Got? {
        Wait(AtLength, r.why);
        return true, CodeOf(r.why), false;
      }
      stop := TakeLengthByte(r.bytes[0]);
      rc, more := if stop then -1 else 1, r.bytes[0] >= 128;
    }

    /** The buffer for the payload (broker/event_io.c:461-470). */
    method Allocate()
      requires LengthDone()
      modifies this`remainingCount, this`inPayload, this`inToProcess
      ensures MidPayload() && (inPayload != null ==> fresh(inPayload))
    {
      remainingCount := -remainingCount;
      if inPacket.common.length > 0 {
        inPayload := new byte[inPacket.common.length];
        inToProcess := inPacket.common.length;
      }
    }

    /** The Remaining Length (broker/event_io.c:424-470). */
    method ReadLength() returns (stop: bool, rc: int)
      requires At(AtLength) && inPacket != null
      modifies this`remainingCount, this`remainingMult, this`script, this`inPayload, this`inToProcess, inPacket`common
      ensures (inPayload != null ==> fresh(inPayload)) && NoWrap()
      ensures stop ==> Ends(old(script), script, rc != -1, rc) && if rc == -1 then After() == Dropped(packets) else Valid()
      ensures !stop ==> MidPayload() && old(script) < script && BytesSince(old(script), script)
    {
      InBounds(AtLength);
      var more := true;
      while more
        invariant BytesSince(old(script), script) && (!more ==> old(script) < script)
        invariant if more then At(AtLength) else LengthDone()
        invariant inPacket == old(inPacket) && inPayload == null && NoWrap() && remainingCount <= 0
        decreases more, 5 + remainingCount
      {
        stop, rc, more := LengthRound(old(script));
        if stop {
          return;
        }
      }
      Allocate();
      return false, 1;
    }

    /** One round of the loop over the payload. */
    method PayloadRound(ghost before: seq<Event>) returns (stop: bool, rc: int)
      requires inPacket != null && inToProcess > 0 && At(AtPayload) && BytesSince(before, script)
      modifies this`script, this`inToProcess, this`inCur, inPayload
      ensures stop ==> Valid() && Ends(before, script, true, rc)
      ensures !stop ==> MidPayload() && before < script && BytesSince(before, script) && inToProcess < old(inToProcess)
    {
      var r := Receive(inToProcess);
      if !r.Got? {
        Wait(AtPayload, r.why);
        return true, CodeOf(r.why);
      }
      Store(r.bytes);
      return false, 1;
    }

    /** The payload (broker/event_io.c:472-500). */
    method ReadPayload(ghost before: seq<Event>) returns (stop: bool, rc: int)
      requires MidPayload() && BytesSince(before, script) && (before < script || inToProcess > 0)
      modifies this`script, this`inToProcess, this`inCur, inPayload
      ensures stop ==> Valid() && Ends(before, script, true, rc)
      ensures !stop ==> Complete() && before < script && BytesSince(before, script)
    {
      stop, rc := false, 1;
      while inToProcess > 0
        invariant !stop && MidPayload() && BytesSince(before, script) && (before < script || inToProcess > 0)
        decreases inToProcess
      {
        stop, rc := PayloadRound(before);
        if stop {
          return;
        }
      }
    }

    /** recv writes into the buffer. */
    static method CopyIn(buffer: array<byte>, at: nat, chunk: seq<byte>)
      requires at + |chunk| <= buffer.Length
      modifies buffer
      ensures buffer[..at + |chunk|] == old(buffer[..at]) + chunk
    {
      forall i | 0 <= i < |chunk| {
        buffer[at + i] := chunk[i];
      }
      assert forall i | at <= i < at + |chunk| :: buffer[i] == chunk[i - at];
    }

    /** The counters move on with it. */
    method Store(chunk: seq<byte>)
      requires inPacket != null && At(AtPayload) && 1 <= |chunk| <= inToProcess
      modifies this`script, this`inToProcess, this`inCur, inPayload
      ensures MidPayload() && script == old(script) + Uncut(chunk) && inToProcess == old(inToProcess) - |chunk|
    {
      ServeChunk(script, JudgeOf(outside), View(), packets, chunk);
      ghost var w := Filled(View(), chunk);
      CopyIn(inPayload, inCur, chunk);
      inToProcess := inToProcess - |chunk|;
      inCur := inCur + |chunk|;
      script := script + Uncut(chunk);
      assert View() == w;
    }

    /** What the outside holds for the next packet of this connection. */
    ghost predicate Meets(beyond: byte, verdict: nat)
      reads this`outside, this`packets
    {
      forall p: Packet :: outside(packets + [p]) == (beyond, verdict)
    }

    /** The packet is there: reset the framing state (broker/event_io.c:501-505). */
    method TakePacket() returns (data: seq<byte>)
      requires Complete()
      modifies this`inCur, this`remainingCount, this`packets, parser`state
      ensures inCur == 0 && remainingCount == 0 && parser.state == Initial
      ensures data == old(Arrived()) && packets == old(packets) + [Packet(inPacket.common, data)]
    {
      data := if inPayload != null then inPayload[..] else [];
      assert data == Arrived();
      packets := packets + [Packet(inPacket.common, data)];
      inCur := 0;
      remainingCount := 0;
      parser.state := Initial;
    }

    /** Parse the packet and hand it on (broker/event_io.c:506-519). verdict is what handle_mqtt_command answers, given
        is the message it gets. */
    method Finish(beyond: byte, verdict: nat) returns (rc: int, given: Value)
      requires Complete() && Meets(beyond, verdict)
      modifies this, inPacket, parser
      ensures script == old(script) && outside == old(outside) && rc in {1, -1}
      ensures packets == old(packets) + [Packet(old(inPacket.common), old(Arrived()))]
      ensures rc == 1 ==> Valid() && inPacket == null && inPayload == null
      ensures rc == -1 ==> After() == Dropped(packets)
      ensures rc == 1 <==> AcceptedLast(packets, outside)
      ensures given == ParsedLast(packets, outside).c.m
      ensures old(NoWrap()) ==> NoWrap()
    {
      var data := TakePacket();
      var answer, nread := Execute(parser, inPacket, data, beyond);
      given := inPacket.Get();
      if answer == Rc.Error || answer == Incomplete {
        return -1, given;
      }
      inPacket := null;
      if verdict != 0 {
        return -1, given;
      }
      inPayload := null;
      return 1, given;
    }

    /** The header byte, unless it was read by an earlier call. */
    method Begin() returns (stop: bool, rc: int)
      requires Valid() && inPacket != null
      modifies this`remainingMult, this`script, inPacket`common
      ensures stop ==> Valid() && Ends(old(script), script, true, rc)
      ensures !stop ==> At(if remainingCount <= 0 then AtLength else AtPayload) && BytesSince(old(script), script)
    {
      stop, rc := false, 1;
      if inPacket.common.kind == 0 {
        stop, rc := ReadHeaderByte();
      }
    }

    /** The rest of a call, once the length is there. */
    method Continue(beyond: byte, verdict: nat, ghost before: seq<Event>) returns (rc: int)
      requires MidPayload() && Meets(beyond, verdict) && NoWrap()
      requires BytesSince(before, script) && (before < script || inToProcess > 0)
      modifies this, inPacket, inPayload, parser
      ensures old(packets) <= packets && outside == old(outside) && NoWrap()
      ensures Ends(before, script, rc != -1, rc) && if rc == -1 then After() == Dropped(packets) else Valid()
    {
      var stop;
      stop, rc := ReadPayload(before);
      if !stop {
        var given;
        rc, given := Finish(beyond, verdict);
      }
    }

    /** The length, unless an earlier call has read it, and what comes behind it. */
    method Advance(beyond: byte, verdict: nat, ghost before: seq<Event>) returns (rc: int)
      requires inPacket != null && At(if remainingCount <= 0 then AtLength else AtPayload) && Meets(beyond, verdict)
      requires BytesSince(before, script)
      modifies this, inPacket, inPayload, parser
      ensures old(packets) <= packets && outside == old(outside) && NoWrap()
      ensures Ends(before, script, rc != -1, rc) && if rc == -1 then After() == Dropped(packets) else Valid()
    {
      InBounds(if remainingCount <= 0 then AtLength else AtPayload);
      var stop := false;
      if remainingCount <= 0 {
        stop, rc := ReadLength();
      }
      if !stop {
        rc := Continue(beyond, verdict, before);
      }
    }

    /** loop_read, called when the socket has something to read: the connection is in the state of the reading steps
        after all that recv gave, and the result says how the call ended. */
    method LoopRead(beyond: byte, verdict: nat) returns (rc: int)
      requires Valid() && Meets(beyond, verdict)
      modifies this, inPacket, inPayload, parser
      ensures old(packets) <= packets && outside == old(outside) && NoWrap()
      ensures Ends(old(script), script, After().Kept?, rc) && if rc == -1 then After() == Dropped(packets) else Valid()
    {
      if inPacket == null {
        inPacket := new Message();
      }
      var stop;
      stop, rc := Begin();
      if stop {
        InBounds(Resume(View()));
      } else {
        rc := Advance(beyond, verdict, old(script));
      }
    }

    /** What loop_run makes of a socket with something to read (broker/event_io.c:259-261): the client is removed exactly
        if recv found the connection closed or broken, or it was given up. */
    method ReadOrRemove(beyond: byte, verdict: nat, ghost next: Outside) returns (removed: bool, ghost taken: seq<Event>)
      requires Valid() && Meets(beyond, verdict)
      modifies this, inPacket, inPayload, parser
      ensures Valid() && taken != [] && BytesSince([], taken[..|taken| - 1])
      ensures removed <==> taken[|taken| - 1] in {Pause(Eof), Pause(Reset), Pause(Failed)}
                           || Serve(old(script) + taken, JudgeOf(old(outside))).Dropped?
      ensures if removed then outside == next && script == [] && packets == [] && inPacket == null && inPayload == null
              else outside == old(outside) && script == old(script) + taken && old(packets) <= packets
    {
      var rc := LoopRead(beyond, verdict);
      taken := script[|old(script)|..];
      assert script == old(script) + taken;
      EndsTaken(old(script), taken, After().Kept?, rc);
      removed := rc <= 0;
      if removed {
        Clean(next);
      }
    }

    /** The framing part of clean_context (broker/broker.c:44-55): the slot's next connection starts like a new one. */
    method Clean(ghost next: Outside)
      modifies this
      ensures Valid() && outside == next && script == [] && packets == []
      ensures inPacket == null && inPayload == null && remainingCount == 0 && inToProcess == 0 && inCur == 0
    {
      inPacket := null;
      remainingCount := 0;
      remainingMult := 0;
      if inPayload != null {
        inPayload := null;
      }
      inToProcess := 0;
      inCur := 0;
      outside, script, packets := next, [], [];
    }
  }

  // ---------- which connections are removed ----------

  /** A call of loop_read: the script before and after it, and its result. */
  datatype Call = Call(before: seq<Event>, after: seq<Event>, rc: int)

  /** Call i goes on from the script of the one before it. */
  predicate CallOk(calls: seq<Call>, judge: Judge, i: nat)
    requires i < |calls|
  {
    && calls[i].before == (if i == 0 then [] else calls[i - 1].after)
    && Ends(calls[i].before, calls[i].after, Serve(calls[i].after, judge).Kept?, calls[i].rc)
  }

  /** The calls on one connection from its beginning. */
  predicate CallsOf(calls: seq<Call>, judge: Judge) { forall i: nat | i < |calls| :: CallOk(calls, judge, i) }

  /** loop_run goes on after each of the first n. */
  predicate NeverRemoved(calls: seq<Call>, n: nat)
    requires n <= |calls|
  {
    forall i | 0 <= i < n :: calls[i].rc > 0
  }

  /** recv was never without a byte but for the time being. */
  predicate OnlyBlocks(script: seq<Event>) { forall i | 0 <= i < |script| :: script[i].Pause? ==> script[i].why.Again? }

  lemma {:induction false} DroppedStays(before: seq<Event>, after: seq<Event>, judge: Judge)
    requires before <= after && Serve(before, judge).Dropped?
    ensures Serve(after, judge).Dropped?
    decreases |after|
  {
    if before != after {
      DroppedStays(before, after[..|after| - 1], judge);
    } else {
      assert before == after;
    }
  }

  /** A single call. */
  lemma CallGoesOn(before: seq<Event>, after: seq<Event>, judge: Judge, rc: int)
    requires Ends(before, after, Serve(after, judge).Kept?, rc)
    ensures before < after
    ensures OnlyBlocks(after) && Serve(after, judge).Kept? <==> OnlyBlocks(before) && rc > 0
  {
    assert after == before + after[|before|..];
    EndsTaken(before, after[|before|..], Serve(after, judge).Kept?, rc);
    OnlyBlocksNext(before, after);
  }

  lemma {:induction false} RemovedAtPause(calls: seq<Call>, judge: Judge, n: nat)
    requires 0 < n <= |calls| && CallsOf(calls, judge)
    ensures NeverRemoved(calls, n) <==> OnlyBlocks(calls[n - 1].after) && Serve(calls[n - 1].after, judge).Kept?
  {
    assert CallOk(calls, judge, n - 1);
    var before, after := calls[n - 1].before, calls[n - 1].after;
    CallGoesOn(before, after, judge, calls[n - 1].rc);
    NeverRemovedNext(calls, n - 1);
    if n > 1 {
      RemovedAtPause(calls, judge, n - 1);
      if Serve(before, judge).Dropped? {
        DroppedStays(before, after, judge);
      }
    }
  }

  lemma NeverRemovedNext(calls: seq<Call>, n: nat)
    requires n < |calls|
    ensures NeverRemoved(calls, n + 1) <==> NeverRemoved(calls, n) && calls[n].rc > 0
  {
  }

  lemma OnlyBlocksNext(before: seq<Event>, after: seq<Event>)
    requires before < after && BytesSince(before, after[..|after| - 1])
    ensures OnlyBlocks(after) <==> OnlyBlocks(before) && after[|after| - 1] !in {Pause(Eof), Pause(Reset), Pause(Failed)}
  {
    forall i | |before| <= i < |after| - 1 ensures after[i].Byte? {
      assert after[i] == after[..|after| - 1][i];
    }
  }

  /** As long as recv only ever blocks, a connection is removed exactly if its bytes hold a malformed length or a packet
      that is refused, however they were cut; but for a byte behind a type-0 header. */
  lemma RemovedExactly(calls: seq<Call>, judge: Judge)
    requires calls != [] && CallsOf(calls, judge) && OnlyBlocks(calls[|calls| - 1].after)
    requires !ZeroFollowed(BytesOf(calls[|calls| - 1].after), judge)
    ensures var d := Decode(BytesOf(calls[|calls| - 1].after));
      NeverRemoved(calls, |calls|) <==> !d.bad && AllAccepted(PacketsOf(d.frames), judge)
  {
    var script := calls[|calls| - 1].after;
    RemovedAtPause(calls, judge, |calls|);
    CutAsUncut(script, BytesOf(script), judge);
    ServeJudged(Uncut(BytesOf(script)), judge);
    UncutIsDecode(BytesOf(script));
  }

  /** A connection that has not been given up is where it would be if nothing had been judged. */
  lemma Unrefused(c: Connection)
    requires c.Valid()
    ensures Serve(c.script, ALL) == c.After() && AllAccepted(c.packets, JudgeOf(c.outside))
  {
    ServeJudged(c.script, JudgeOf(c.outside));
  }

  /** Between calls, what was handed on and what is saved depends on the bytes received only, unless a byte followed a
      type-0 header: two connections that received the same bytes, cut and timed in whatever way and whatever their
      handlers answered, are in the same state, and have handed on what the one-shot decoder finds. */
  lemma CutsDoNotMatter(a: Connection, b: Connection)
    requires a.Valid() && b.Valid() && BytesOf(a.script) == BytesOf(b.script) && !ZeroFollowed(BytesOf(a.script), ALL)
    ensures a.View() == b.View()
    ensures a.packets == b.packets == PacketsOf(Decode(BytesOf(a.script)).frames) && !Decode(BytesOf(a.script)).bad
  {
    var s := BytesOf(a.script);
    Unrefused(a);
    Unrefused(b);
    AgreeIfNoZero(s, ALL);
    BytesOfUncut(s);
    UncutIsDecode(s);
    assert BytesOf(Uncut(s)) == BytesOf(a.script);
    ServeNext(a.script, PAUSE, ALL);
    ServeNext(b.script, PAUSE, ALL);
    ServeNext(Uncut(s), PAUSE, ALL);
  }
}
