/** loop_read step by step, as a function of what recv gives it: bytes, and pauses at which it returns and is called
    again. Which packets it hands on and what it saves depends on the pauses exactly for streams in which a byte
    follows a header of type 0, the type that MQTT 3.1.1 reserves (section 2.2.1). */
module Reading {
  import opened Wire
  import opened Messages
  import opened Parser
  import opened RoundTrip
  import opened Frames

  /** Why recv gives no byte: the peer has closed, there is none for now, the connection was reset, or another error. */
  datatype Why = Eof | Again | Reset | Failed

  /** What recv gives: a byte, or none, at which the call ends. */
  datatype Event = Byte(b: byte) | Pause(why: Why)

  /** Nothing for now. */
  const PAUSE := Pause(Again)

  /** What the next byte is for. */
  datatype Point = AtHeader | AtLength | AtPayload

  /** What a call leaves for the next one: in_packet->common, remaining_mult, remaining_count, the part of in_payload that
      has arrived, and in_to_process. */
  datatype Saved = Saved(c: Common, mult: nat, count: int, data: seq<byte>, want: nat)

  /** A packet as the parser gets it. */
  datatype Packet = Packet(c: Common, data: seq<byte>)

  /** The connection goes on, with the packets handed on so far; or it has been given up after them. */
  datatype Served = Kept(saved: Saved, point: Point, packets: seq<Packet>) | Dropped(packets: seq<Packet>)

  /** Whether the last of these packets was parsed and its handler did not refuse it. */
  type Judge = seq<Packet> -> bool

  const ALL: Judge := (packets: seq<Packet>) => true

  /** Between packets. */
  function Idle(mult: nat): Saved { Saved(BLANK.common, mult, 0, [], 0) }

  /** Where a call begins with what was saved (broker/event_io.c:394, 424, 472). */
  function Resume(v: Saved): Point
  {
    if v.c.kind == 0 then AtHeader else if v.count <= 0 then AtLength else AtPayload
  }

  /** A packet is complete (broker/event_io.c:501-519). */
  function Finish(v: Saved, packets: seq<Packet>, judge: Judge): Served
  {
    var all := packets + [Packet(v.c, v.data)];
    if judge(all) then Kept(Idle(v.mult), AtHeader, all) else Dropped(all)
  }

  /** The header byte (broker/event_io.c:400-424): the length, or the payload, goes on where it stood. */
  function HeaderByteOf(v: Saved, b: byte): (Saved, Point)
  {
    (v.(c := ReadHeader(b, v.c.length), mult := 1), if v.count <= 0 then AtLength else AtPayload)
  }

  /** A byte of the length (broker/event_io.c:431-470). */
  function LengthByte(v: Saved, b: byte, packets: seq<Packet>, judge: Judge): Served
  {
    if v.count - 1 < -4 then Dropped(packets)
    else
      var w := Added(v, b);
      if b >= 128 then Kept(w, AtLength, packets)
      else
        var u := w.(count := -w.count, want := w.c.length);
        if u.want == 0 then Finish(u, packets, judge) else Kept(u, AtPayload, packets)
  }

  /** The byte's seven bits are added to the length. */
  function Added(v: Saved, b: byte): Saved
  {
    v.(c := v.c.(length := v.c.length + b % 128 * v.mult), mult := v.mult * 128, count := v.count - 1)
  }

  /** A byte of the payload (broker/event_io.c:472-480). */
  function PayloadByte(v: Saved, b: byte, packets: seq<Packet>, judge: Judge): Served
  {
    var w := v.(data := v.data + [b], want := if v.want > 0 then v.want - 1 else 0);
    if w.want == 0 then Finish(w, packets, judge) else Kept(w, AtPayload, packets)
  }

  function Feed(s: Served, e: Event, judge: Judge): Served
  {
    if s.Dropped? then s
    else if e.Pause? then s.(point := Resume(s.saved))
    else
      match s.point
      case AtHeader => var r := HeaderByteOf(s.saved, e.b); Kept(r.0, r.1, s.packets)
      case AtLength => LengthByte(s.saved, e.b, s.packets, judge)
      case AtPayload => PayloadByte(s.saved, e.b, s.packets, judge)
  }

  /** A connection after these events. */
  function Serve(script: seq<Event>, judge: Judge): Served
  {
    if script == [] then Kept(Idle(0), AtHeader, [])
    else Feed(Serve(script[..|script| - 1], judge), script[|script| - 1], judge)
  }

  lemma ServeNext(script: seq<Event>, e: Event, judge: Judge)
    ensures Serve(script + [e], judge) == Feed(Serve(script, judge), e, judge)
  {
    assert (script + [e])[..|script|] == script;
  }

  /** The bytes among the events. */
  function BytesOf(script: seq<Event>): seq<byte>
  {
    if script == [] then []
    else
      var e := script[|script| - 1];
      BytesOf(script[..|script| - 1]) + if e.Byte? then [e.b] else []
  }

  lemma {:induction false} BytesAppend(script: seq<Event>, s: seq<byte>)
    ensures BytesOf(script + Uncut(s)) == BytesOf(script) + s
    decreases |s|
  {
    if s == [] {
      assert script + Uncut(s) == script;
    } else {
      var last := |s| - 1;
      assert s == s[..last] + [s[last]];
      assert script + Uncut(s) == (script + Uncut(s[..last])) + [Byte(s[last])];
      BytesAppend(script, s[..last]);
      BytesNext(script + Uncut(s[..last]), Byte(s[last]));
    }
  }

  lemma BytesNext(script: seq<Event>, e: Event)
    ensures BytesOf(script + [e]) == BytesOf(script) + if e.Byte? then [e.b] else []
  {
    assert (script + [e])[..|script|] == script;
  }

  /** All the bytes in one call. */
  function Uncut(s: seq<byte>): (script: seq<Event>)
    ensures |script| == |s| && forall i | 0 <= i < |s| :: script[i] == Byte(s[i])
  {
    seq(|s|, i requires 0 <= i < |s| => Byte(s[i]))
  }

  lemma UncutNext(s: seq<byte>, b: byte, judge: Judge)
    ensures Uncut(s + [b]) == Uncut(s) + [Byte(b)]
    ensures Serve(Uncut(s + [b]), judge) == Feed(Serve(Uncut(s), judge), Byte(b), judge)
  {
    ServeNext(Uncut(s), Byte(b), judge);
  }

  lemma {:induction false} BytesOfUncut(s: seq<byte>)
    ensures BytesOf(Uncut(s)) == s
    decreases |s|
  {
    if s != [] {
      var last := |s| - 1;
      assert s == s[..last] + [s[last]];
      BytesOfUncut(s[..last]);
      UncutNext(s[..last], s[last], ALL);
      BytesNext(Uncut(s[..last]), Byte(s[last]));
    }
  }

  // ---------- what holds after any events ----------

  function Abs(n: int): nat { if n < 0 then -n else n }

  /** The counters fit each other, and neither the length nor its multiplier passes 28 bits. */
  predicate InOrder(v: Saved)
  {
    && -4 <= v.count <= 4
    && (v.count <= 0 ==> v.want == 0 && v.data == [])
    && (v.count > 0 ==> v.want > 0 && |v.data| + v.want == v.c.length)
    && v.c.length < Pow128(Abs(v.count)) && 0 <= v.mult <= Pow128(4)
  }

  predicate PointOk(v: Saved, p: Point)
  {
    && (p.AtHeader? ==> v.c.kind == 0)
    && (p.AtLength? ==> v.count <= 0 && v.mult <= Pow128(Abs(v.count)))
    && (p.AtPayload? ==> v.count > 0)
  }

  predicate Ok(s: Served) { s.Kept? ==> InOrder(s.saved) && PointOk(s.saved, s.point) }

  lemma PowNext(k: nat)
    ensures Pow128(k + 1) == 128 * Pow128(k)
  {
  }

  lemma {:induction false} PowMono(j: nat, k: nat)
    requires j <= k
    ensures Pow128(j) <= Pow128(k)
    decreases k
  {
    if j < k {
      PowMono(j, k - 1);
    }
  }

  lemma PowMax()
    ensures Pow128(4) == MAX_LENGTH + 1 == 0x1000_0000
  {
    assert Pow128(1) == 128 && Pow128(2) == 16384 && Pow128(3) == 2097152;
  }

  lemma Scale(d: nat, x: nat, y: nat)
    requires x <= y
    ensures d * x <= d * y
  {
    assert d * y == d * x + d * (y - x);
  }

  /** One more byte of the length stays below the next power. */
  lemma AddedBound(length: nat, d: nat, mult: nat, p: nat)
    requires length < p && mult <= p && d <= 127
    ensures length + d * mult < 128 * p && mult * 128 <= 128 * p
  {
    Scale(d, mult, p);
    Scale(p, d, 127);
  }

  lemma LengthByteOk(v: Saved, b: byte, packets: seq<Packet>, judge: Judge)
    requires InOrder(v) && PointOk(v, AtLength)
    ensures Ok(LengthByte(v, b, packets, judge))
  {
    if v.count - 1 >= -4 {
      AddedBound(v.c.length, b % 128, v.mult, Pow128(Abs(v.count)));
      PowNext(Abs(v.count));
      PowMono(Abs(v.count) + 1, 4);
    }
  }

  lemma FeedOk(s: Served, e: Event, judge: Judge)
    requires Ok(s)
    ensures Ok(Feed(s, e, judge))
  {
    if s.Kept? && e.Byte? {
      PowMono(0, 4);
      PowMono(0, Abs(s.saved.count));
      if s.point.AtLength? {
        LengthByteOk(s.saved, e.b, s.packets, judge);
      }
    }
  }

  lemma {:induction false} ServeOk(script: seq<Event>, judge: Judge)
    ensures Ok(Serve(script, judge))
    decreases |script|
  {
    if script != [] {
      ServeOk(script[..|script| - 1], judge);
      FeedOk(Serve(script[..|script| - 1], judge), script[|script| - 1], judge);
    }
  }

  /** On any input, cut in any way, every length that is added up and every multiplier fits 32 bits. */
  lemma NoWrap(script: seq<Event>, judge: Judge)
    requires Serve(script, judge).Kept?
    ensures var v := Serve(script, judge).saved;
      && v.c.length <= MAX_LENGTH && v.mult <= 0x1000_0000
      && (Serve(script, judge).point.AtLength? ==>
            forall b: byte :: -4 <= v.count - 1 ==> Added(v, b).c.length <= MAX_LENGTH && Added(v, b).mult <= 0x1000_0000)
  {
    var s := Serve(script, judge);
    ServeOk(script, judge);
    PowMax();
    PowMono(Abs(s.saved.count), 4);
    if s.point.AtLength? && -4 <= s.saved.count - 1 {
      forall b: byte ensures Added(s.saved, b).c.length <= MAX_LENGTH && Added(s.saved, b).mult <= 0x1000_0000 {
        AddedBound(s.saved.c.length, b % 128, s.saved.mult, Pow128(Abs(s.saved.count)));
        PowNext(Abs(s.saved.count));
        PowMono(Abs(s.saved.count) + 1, 4);
      }
    }
  }

  // ---------- a piece of the payload ----------

  /** What is left of the payload's bytes. */
  function Filled(v: Saved, chunk: seq<byte>): Saved
    requires |chunk| <= v.want
  {
    v.(data := v.data + chunk, want := v.want - |chunk|)
  }

  lemma {:induction false} ServeChunk(script: seq<Event>, judge: Judge, v: Saved, packets: seq<Packet>, chunk: seq<byte>)
    requires Serve(script, judge) == Kept(v, AtPayload, packets) && 1 <= |chunk| <= v.want
    ensures var w := Filled(v, chunk);
      Serve(script + Uncut(chunk), judge) == if w.want == 0 then Finish(w, packets, judge) else Kept(w, AtPayload, packets)
    decreases |chunk|
  {
    var last := |chunk| - 1;
    var front := chunk[..last];
    assert Uncut(chunk) == Uncut(front) + [Byte(chunk[last])];
    assert script + Uncut(chunk) == (script + Uncut(front)) + [Byte(chunk[last])];
    ServeNext(script + Uncut(front), Byte(chunk[last]), judge);
    if last > 0 {
      ServeChunk(script, judge, v, packets, front);
    } else {
      assert script + Uncut(front) == script;
      assert v.data + front == v.data;
    }
    assert (v.data + front) + [chunk[last]] == v.data + chunk;
  }

  // ---------- when the pauses matter ----------

  /** What a pause makes of a state. */
  function Settled(s: Served): Served
  {
    if s.Dropped? then s else s.(point := Resume(s.saved))
  }

  /** Every way to cut the bytes of every beginning of s leaves the same state behind. */
  ghost predicate AllCutsAgree(s: seq<byte>, judge: Judge)
  {
    forall d, e :: BytesOf(d) == BytesOf(e) && BytesOf(d) <= s ==> Serve(d + [PAUSE], judge) == Serve(e + [PAUSE], judge)
  }

  function PacketsOf(frames: seq<Frame>): (p: seq<Packet>)
    ensures |p| == |frames|
    ensures forall i | 0 <= i < |frames| :: p[i] == Packet(ReadHeader(frames[i].header, |frames[i].payload|), frames[i].payload)
  {
    seq(|frames|, i requires 0 <= i < |frames| => Packet(ReadHeader(frames[i].header, |frames[i].payload|), frames[i].payload))
  }

  predicate AllAccepted(packets: seq<Packet>, judge: Judge)
  {
    forall n | 0 < n <= |packets| :: judge(packets[..n])
  }

  /** The i-th byte of s is the header of a packet, if s is read in one call, and has type 0. */
  predicate ZeroHeaderAt(s: seq<byte>, judge: Judge, i: nat)
    requires i < |s|
  {
    var d := Decode(s[..i]);
    !d.bad && d.rest == [] && AllAccepted(PacketsOf(d.frames), judge) && s[i] < 16
  }

  /** A byte follows a header of type 0. */
  ghost predicate ZeroFollowed(s: seq<byte>, judge: Judge)
  {
    exists i: nat :: i + 1 < |s| && ZeroHeaderAt(s, judge, i)
  }

  // ---------- one call is the one-shot decoder ----------

  /** The bytes of the packet in progress, as the saved state has them. */
  predicate Reads(rest: seq<byte>, v: Saved, p: Point)
  {
    match p
    case AtHeader => rest == [] && v == Idle(v.mult)
    case AtLength =>
      && rest != [] && Continued(rest[1..], |rest| - 1) && |rest| <= 5
      && v == Saved(ReadHeader(rest[0], LengthValue(rest[1..])), Pow128(|rest| - 1), -(|rest| - 1), [], 0)
    case AtPayload =>
      && 1 <= v.count <= 4 && |rest| >= 1 + v.count && IsLengthField(rest[1..1 + v.count])
      && v.c == ReadHeader(rest[0], LengthValue(rest[1..1 + v.count]))
      && rest == [rest[0]] + rest[1..1 + v.count] + v.data
      && |v.data| + v.want == LengthValue(rest[1..1 + v.count]) && v.want > 0
  }

  /** The state after these bytes in one call, for a judge that refuses nothing. */
  predicate IsDecode(s: Served, d: Decoded)
  {
    s.packets == PacketsOf(d.frames) && (s.Dropped? <==> d.bad) && (s.Kept? ==> Reads(d.rest, s.saved, s.point))
  }

  lemma PacketsOfAppend(frames: seq<Frame>, f: Frame)
    ensures PacketsOf(frames + [f]) == PacketsOf(frames) + [Packet(ReadHeader(f.header, |f.payload|), f.payload)]
  {
  }

  lemma HeaderDecodes(s: seq<byte>, d: Decoded, v: Saved, h: byte)
    requires Decode(s) == d && !d.bad && Reads(d.rest, v, AtHeader)
    ensures IsDecode(Feed(Kept(v, AtHeader, PacketsOf(d.frames)), Byte(h), ALL), Decode(s + [h]))
  {
    LengthOpen(h, []);
    assert [h] + [] == [h] && [] + [h] == [h] && [h][1..] == [];
    StillOpen(s, d.frames, [], [h]);
  }

  /** The length field with one more byte. */
  lemma LengthByteValue(p: seq<byte>, b: byte)
    requires p != []
    ensures (p + [b])[1..] == p[1..] + [b]
    ensures LengthValue((p + [b])[1..]) == LengthValue(p[1..]) + b % 128 * Pow128(|p| - 1)
  {
    assert (p + [b])[1..] == p[1..] + [b];
    LengthValueAppend(p[1..], b);
  }

  lemma FifthByteDecodes(s: seq<byte>, d: Decoded, v: Saved, b: byte)
    requires Decode(s) == d && !d.bad && Reads(d.rest, v, AtLength) && |d.rest| == 5
    ensures IsDecode(LengthByte(v, b, PacketsOf(d.frames), ALL), Decode(s + [b]))
  {
    var p := d.rest;
    assert p + [b] == [p[0]] + p[1..] + [b];
    FifthByte(p[0], p[1..], b);
    Breaks(s, d.frames, p, [b]);
  }

  lemma OpenByteDecodes(s: seq<byte>, d: Decoded, v: Saved, b: byte)
    requires Decode(s) == d && !d.bad && Reads(d.rest, v, AtLength) && |d.rest| < 5 && b >= 128
    ensures IsDecode(LengthByte(v, b, PacketsOf(d.frames), ALL), Decode(s + [b]))
  {
    var p := d.rest;
    FieldAdded(p, v, b);
    assert p + [b] == [p[0]] + (p[1..] + [b]);
    LengthOpen(p[0], p[1..] + [b]);
    StillOpen(s, d.frames, p, [b]);
    assert (p + [b])[1..] == p[1..] + [b];
  }

  /** The last length byte, seen by the decoder ... */
  lemma FieldDecodes(s: seq<byte>, d: Decoded, b: byte)
    requires Decode(s) == d && !d.bad && d.rest != [] && |d.rest| < 5 && Continued(d.rest[1..], |d.rest| - 1) && b < 128
    ensures IsLengthField(d.rest[1..] + [b])
    ensures Decode(s + [b]) == if LengthValue(d.rest[1..] + [b]) > 0 then Decoded(d.frames, d.rest + [b], false)
                               else Decoded(d.frames + [Frame(d.rest[0], [])], [], false)
  {
    var p := d.rest;
    var field := p[1..] + [b];
    assert p + [b] == [p[0]] + field + [];
    PayloadOpen(p[0], field, []);
    if LengthValue(field) > 0 {
      StillOpen(s, d.frames, p, [b]);
    } else {
      Closes(s, d.frames, p, [b], Frame(p[0], []));
    }
  }

  /** ... and by the read loop. */
  lemma FieldAdded(p: seq<byte>, v: Saved, b: byte)
    requires Reads(p, v, AtLength) && |p| < 5
    ensures var n := LengthValue(p[1..] + [b]);
      Added(v, b) == Saved(ReadHeader(p[0], n), Pow128(|p|), -|p|, [], 0)
  {
    LengthByteValue(p, b);
    PowNext(|p| - 1);
  }

  lemma LastByteOpens(s: seq<byte>, d: Decoded, v: Saved, b: byte)
    requires Decode(s) == d && !d.bad && Reads(d.rest, v, AtLength) && |d.rest| < 5 && b < 128
    requires LengthValue(d.rest[1..] + [b]) > 0
    ensures IsDecode(LengthByte(v, b, PacketsOf(d.frames), ALL), Decode(s + [b]))
  {
    FieldDecodes(s, d, b);
    FieldAdded(d.rest, v, b);
    FieldRead(d.rest, d.rest[1..] + [b], b, Added(v, b).(count := |d.rest|, want := LengthValue(d.rest[1..] + [b])));
  }

  lemma FieldRead(p: seq<byte>, field: seq<byte>, b: byte, v: Saved)
    requires p != [] && field == p[1..] + [b] && IsLengthField(field) && |p| <= 4 && LengthValue(field) > 0
    requires v.c == ReadHeader(p[0], LengthValue(field)) && v.count == |p| && v.data == [] && v.want == LengthValue(field)
    ensures Reads(p + [b], v, AtPayload)
  {
    assert (p + [b])[1..1 + |p|] == field && p + [b] == [p[0]] + field + [];
  }

  lemma LastByteCloses(s: seq<byte>, d: Decoded, v: Saved, b: byte)
    requires Decode(s) == d && !d.bad && Reads(d.rest, v, AtLength) && |d.rest| < 5 && b < 128
    requires LengthValue(d.rest[1..] + [b]) == 0
    ensures IsDecode(LengthByte(v, b, PacketsOf(d.frames), ALL), Decode(s + [b]))
  {
    FieldDecodes(s, d, b);
    FieldAdded(d.rest, v, b);
    PacketsOfAppend(d.frames, Frame(d.rest[0], []));
  }

  lemma PayloadByteOpens(s: seq<byte>, d: Decoded, v: Saved, b: byte)
    requires Decode(s) == d && !d.bad && Reads(d.rest, v, AtPayload) && v.want > 1
    ensures IsDecode(PayloadByte(v, b, PacketsOf(d.frames), ALL), Decode(s + [b]))
  {
    var p, field := d.rest, d.rest[1..1 + v.count];
    PayloadGrows(p, field, v.data, b);
    PayloadOpen(p[0], field, v.data + [b]);
    StillOpen(s, d.frames, p, [b]);
  }

  lemma PayloadGrows(p: seq<byte>, field: seq<byte>, data: seq<byte>, b: byte)
    requires p != [] && p == [p[0]] + field + data
    ensures p + [b] == [p[0]] + field + (data + [b]) && (p + [b])[1..1 + |field|] == field == p[1..1 + |field|]
  {
  }

  lemma PayloadByteCloses(s: seq<byte>, d: Decoded, v: Saved, b: byte)
    requires Decode(s) == d && !d.bad && Reads(d.rest, v, AtPayload) && v.want == 1
    ensures IsDecode(PayloadByte(v, b, PacketsOf(d.frames), ALL), Decode(s + [b]))
  {
    var p, field := d.rest, d.rest[1..1 + v.count];
    PayloadGrows(p, field, v.data, b);
    PayloadOpen(p[0], field, v.data + [b]);
    Closes(s, d.frames, p, [b], Frame(p[0], v.data + [b]));
    PacketsOfAppend(d.frames, Frame(p[0], v.data + [b]));
  }

  /** Read in one call and with nothing refused, a stream gives the packets of the one-shot decoder and is given up
      exactly where that finds a malformed length; what is saved is its undecoded rest. */
  lemma {:induction false} UncutIsDecode(s: seq<byte>)
    ensures IsDecode(Serve(Uncut(s), ALL), Decode(s))
    decreases |s|
  {
    if s != [] {
      var before, b := s[..|s| - 1], s[|s| - 1];
      assert s == before + [b];
      UncutIsDecode(before);
      UncutNext(before, b, ALL);
      var st, d := Serve(Uncut(before), ALL), Decode(before);
      if st.Dropped? {
        DecodeAppend(before, [b]);
      } else if st.point.AtHeader? {
        HeaderDecodes(before, d, st.saved, b);
      } else if st.point.AtPayload? {
        if st.saved.want > 1 {
          PayloadByteOpens(before, d, st.saved, b);
        } else {
          PayloadByteCloses(before, d, st.saved, b);
        }
      } else if |d.rest| == 5 {
        FifthByteDecodes(before, d, st.saved, b);
      } else if b >= 128 {
        OpenByteDecodes(before, d, st.saved, b);
      } else if LengthValue(d.rest[1..] + [b]) > 0 {
        LastByteOpens(before, d, st.saved, b);
      } else {
        LastByteCloses(before, d, st.saved, b);
      }
    }
  }

  // ---------- refusals ----------

  /** The shortest beginning of the packets that ends in a refused one. */
  predicate FirstRefused(all: seq<Packet>, judge: Judge, packets: seq<Packet>)
  {
    && packets != [] && packets <= all && !judge(packets)
    && AllAccepted(packets[..|packets| - 1], judge)
  }

  /** A judge that has refused nothing has made no difference; otherwise the connection ended with the first refusal. */
  predicate Judged(all: Served, s: Served, judge: Judge)
  {
    if AllAccepted(all.packets, judge) then s == all else s.Dropped? && FirstRefused(all.packets, judge, s.packets)
  }

  lemma AllAcceptedNext(packets: seq<Packet>, p: Packet, judge: Judge)
    ensures AllAccepted(packets + [p], judge) <==> AllAccepted(packets, judge) && judge(packets + [p])
  {
    var all := packets + [p];
    assert all[..|all|] == all;
    forall n | 0 < n <= |packets| ensures all[..n] == packets[..n] {
    }
  }

  /** Only a complete packet is judged, and packets only grow. */
  lemma FeedGrows(s: Served, e: Event, judge: Judge)
    ensures var t, u := Feed(s, e, ALL), Feed(s, e, judge);
      || (t.packets == s.packets && u == t)
      || (exists p :: t.packets == s.packets + [p] && u == if judge(t.packets) then t else Dropped(t.packets))
  {
    var t := Feed(s, e, ALL);
    if s.Kept? && e.Byte? && !s.point.AtHeader? && t.packets != s.packets {
      assert t.packets == s.packets + [t.packets[|s.packets|]];
    }
  }

  lemma JudgedNext(all: Served, s: Served, e: Event, judge: Judge)
    requires Judged(all, s, judge)
    ensures Judged(Feed(all, e, ALL), Feed(s, e, judge), judge)
  {
    var t := Feed(all, e, ALL);
    FeedGrows(all, e, judge);
    if t.packets != all.packets {
      var p :| t.packets == all.packets + [p];
      AllAcceptedNext(all.packets, p, judge);
      if AllAccepted(all.packets, judge) && !judge(t.packets) {
        assert t.packets[..|t.packets| - 1] == all.packets;
      }
    }
  }

  lemma {:induction false} ServeJudged(script: seq<Event>, judge: Judge)
    ensures Judged(Serve(script, ALL), Serve(script, judge), judge)
    decreases |script|
  {
    if script != [] {
      ServeJudged(script[..|script| - 1], judge);
      JudgedNext(Serve(script[..|script| - 1], ALL), Serve(script[..|script| - 1], judge), script[|script| - 1], judge);
    }
  }

  /** The next byte of s is a header byte, if s is read in one call. */
  predicate HeaderNext(s: seq<byte>, judge: Judge)
  {
    var st := Serve(Uncut(s), judge);
    st.Kept? && st.point.AtHeader?
  }

  lemma HeaderNextIsDecode(s: seq<byte>, judge: Judge)
    ensures HeaderNext(s, judge) <==>
      !Decode(s).bad && Decode(s).rest == [] && AllAccepted(PacketsOf(Decode(s).frames), judge)
    ensures HeaderNext(s, judge) ==> exists mult, packets :: Serve(Uncut(s), judge) == Kept(Idle(mult), AtHeader, packets)
  {
    UncutIsDecode(s);
    ServeJudged(Uncut(s), judge);
    var st := Serve(Uncut(s), judge);
    if HeaderNext(s, judge) {
      assert st == Kept(Idle(st.saved.mult), AtHeader, st.packets);
    }
  }

  // ---------- if no byte follows a type-0 header, all cuts agree ----------

  lemma ZeroStep(st: Served, b: byte, judge: Judge)
    requires var u := Feed(st, Byte(b), judge); u.Kept? && !u.point.AtHeader? && u.saved.c.kind == 0
    ensures st.Kept? && if st.point.AtHeader? then b < 16 else st.saved.c.kind == 0
  {
  }

  /** In the middle of a packet of type 0, its header lies behind. */
  lemma {:induction false} ZeroBehind(s: seq<byte>, judge: Judge) returns (i: nat)
    requires var st := Serve(Uncut(s), judge); st.Kept? && !st.point.AtHeader? && st.saved.c.kind == 0
    ensures i < |s| && ZeroHeaderAt(s, judge, i)
    decreases |s|
  {
    var last := |s| - 1;
    var before, b := s[..last], s[last];
    assert s == before + [b];
    UncutNext(before, b, judge);
    ZeroStep(Serve(Uncut(before), judge), b, judge);
    if HeaderNext(before, judge) {
      HeaderNextIsDecode(before, judge);
      i := last;
    } else {
      i := ZeroBehind(before, judge);
      assert before[..i] == s[..i];
    }
  }

  /** Cut in any way, the state is the one of the uncut stream, or what a pause makes of it. */
  ghost predicate AsUncut(script: seq<Event>, judge: Judge)
  {
    var u := Serve(Uncut(BytesOf(script)), judge);
    Serve(script, judge) == u || Serve(script, judge) == Settled(u)
  }

  lemma SettledChanges(st: Served)
    requires Ok(st) && Settled(st) != st
    ensures st.Kept? && !st.point.AtHeader? && st.saved.c.kind == 0
  {
  }

  lemma {:induction false} CutAsUncut(script: seq<Event>, s: seq<byte>, judge: Judge)
    requires BytesOf(script) <= s && !ZeroFollowed(s, judge)
    ensures AsUncut(script, judge)
    decreases |script|
  {
    if script == [] {
      assert Uncut([]) == [];
    } else {
      var before, e := script[..|script| - 1], script[|script| - 1];
      assert script == before + [e];
      BytesNext(before, e);
      assert BytesOf(before) <= BytesOf(script) <= s;
      CutAsUncut(before, s, judge);
      var t := BytesOf(before);
      var u := Serve(Uncut(t), judge);
      ServeNext(before, e, judge);
      if e.Byte? {
        UncutNext(t, e.b, judge);
        ServeOk(Uncut(t), judge);
        if Settled(u) != u {
          SettledChanges(u);
          var i := ZeroBehind(t, judge);
          assert s[..i] == t[..i] && s[i] == t[i];
          assert ZeroHeaderAt(s, judge, i);
        }
      } else {
        assert t + [] == t;
      }
    }
  }

  lemma AgreeIfNoZero(s: seq<byte>, judge: Judge)
    requires !ZeroFollowed(s, judge)
    ensures AllCutsAgree(s, judge)
  {
    forall d, e | BytesOf(d) == BytesOf(e) && BytesOf(d) <= s
      ensures Serve(d + [PAUSE], judge) == Serve(e + [PAUSE], judge)
    {
      CutAsUncut(d, s, judge);
      CutAsUncut(e, s, judge);
      ServeNext(d, PAUSE, judge);
      ServeNext(e, PAUSE, judge);
    }
  }

  // ---------- if one does, two cuts differ ----------

  lemma SameBytes(before: seq<byte>, h: byte, b: byte)
    ensures BytesOf(Uncut(before + [h] + [b])) == BytesOf(Uncut(before + [h]) + [PAUSE] + [Byte(b)])
  {
    var two := Uncut(before + [h]);
    BytesOfUncut(before + [h] + [b]);
    BytesOfUncut(before + [h]);
    BytesNext(two, PAUSE);
    BytesNext(two + [PAUSE], Byte(b));
    assert (before + [h] + []) + [b] == before + [h] + [b];
  }

  /** With a pause between the type-0 header and the byte behind it, that byte is taken as a header; without, as a length. */
  lemma TwoCuts(before: seq<byte>, h: byte, b: byte, judge: Judge)
    requires HeaderNext(before, judge) && h < 16
    ensures Serve(Uncut(before + [h] + [b]) + [PAUSE], judge) != Serve(Uncut(before + [h]) + [PAUSE] + [Byte(b)] + [PAUSE], judge)
  {
    var two := Uncut(before + [h]);
    UncutNext(before, h, judge);
    UncutNext(before + [h], b, judge);
    ServeNext(Uncut(before + [h] + [b]), PAUSE, judge);
    ServeNext(two, PAUSE, judge);
    ServeNext(two + [PAUSE], Byte(b), judge);
    ServeNext(two + [PAUSE] + [Byte(b)], PAUSE, judge);
    HeaderNextIsDecode(before, judge);
    CutsDiffer(Serve(Uncut(before), judge), h, b, judge);
  }

  lemma CutsDiffer(st: Served, h: byte, b: byte, judge: Judge)
    requires st.Kept? && st.point.AtHeader? && st.saved == Idle(st.saved.mult) && h < 16
    ensures var u := Feed(st, Byte(h), judge);
      && Feed(Feed(u, Byte(b), judge), PAUSE, judge) != Feed(Feed(Feed(u, PAUSE, judge), Byte(b), judge), PAUSE, judge)
  {
  }

  lemma DifferAt(s: seq<byte>, before: seq<byte>, h: byte, b: byte, judge: Judge)
    requires HeaderNext(before, judge) && h < 16 && before + [h] + [b] <= s
    ensures !AllCutsAgree(s, judge)
  {
    SameBytes(before, h, b);
    TwoCuts(before, h, b, judge);
    BytesOfUncut(before + [h] + [b]);
  }

  lemma TwoMore(s: seq<byte>, i: nat)
    requires i + 1 < |s|
    ensures s[..i] + [s[i]] + [s[i + 1]] <= s
  {
    assert s[..i] + [s[i]] + [s[i + 1]] == s[..i + 2];
  }

  lemma DifferIfZero(s: seq<byte>, judge: Judge)
    requires ZeroFollowed(s, judge)
    ensures !AllCutsAgree(s, judge)
  {
    var i: nat :| i + 1 < |s| && ZeroHeaderAt(s, judge, i);
    HeaderNextIsDecode(s[..i], judge);
    TwoMore(s, i);
    DifferAt(s, s[..i], s[i], s[i + 1], judge);
  }

  /** What loop_read hands on and saves is independent of how the stream is cut, for every beginning of it, exactly if no
      byte of it follows a header of type 0; whatever the parser and the handler refuse. */
  lemma CutsAgreeExactly(s: seq<byte>, judge: Judge)
    ensures AllCutsAgree(s, judge) <==> !ZeroFollowed(s, judge)
  {
    if ZeroFollowed(s, judge) {
      DifferIfZero(s, judge);
    } else {
      AgreeIfNoZero(s, judge);
    }
  }

  // ---------- what the broker does with a type-0 packet ----------

  /** What lies outside of loop_read: the byte behind the payload's buffer, and what handle_mqtt_command answers, for
      the packets of this connection so far. */
  type Outside = seq<Packet> -> (byte, nat)

  /** The parser's answer for the last of these packets. */
  function ParsedLast(packets: seq<Packet>, outside: Outside): Outcome
    requires packets != []
  {
    var p := packets[|packets| - 1];
    Parse(Received(p.c), p.data, outside(packets).0)
  }

  predicate AcceptedLast(packets: seq<Packet>, outside: Outside)
  {
    packets != [] ==> ParsedLast(packets, outside).rc == Done && outside(packets).1 == 0
  }

  function JudgeOf(outside: Outside): Judge { packets => AcceptedLast(packets, outside) }

  /** The bytes 0, 0. In one call they are a packet of type 0, which the parser refuses. With a pause between them the
      second byte is taken as another header, and the connection lives on. */
  lemma TwoZeros(outside: Outside)
    ensures Serve([Byte(0), Byte(0)], JudgeOf(outside)) == Dropped([Packet(ReadHeader(0, 0), [])])
    ensures Serve([Byte(0), PAUSE, Byte(0)], JudgeOf(outside)) == Kept(Saved(ReadHeader(0, 0), 1, 0, [], 0), AtLength, [])
  {
    var judge := JudgeOf(outside);
    ServeThree(Byte(0), PAUSE, Byte(0), judge);
    ServeTwo(Byte(0), Byte(0), judge);
    var packet := Packet(ReadHeader(0, 0), []);
    TypeZeroRefused(packet.c, [], outside([packet]).0);
    assert [] + [packet] == [packet];
    assert !judge([packet]);
    assert Feed(Kept(Idle(0), AtHeader, []), Byte(0), judge) == Kept(Saved(ReadHeader(0, 0), 1, 0, [], 0), AtLength, []);
  }

  lemma ServeTwo(a: Event, b: Event, judge: Judge)
    ensures Serve([a], judge) == Feed(Kept(Idle(0), AtHeader, []), a, judge)
    ensures Serve([a, b], judge) == Feed(Serve([a], judge), b, judge)
  {
    ServeNext([], a, judge);
    ServeNext([a], b, judge);
    assert [] + [a] == [a] && [a] + [b] == [a, b];
  }

  lemma ServeThree(a: Event, b: Event, c: Event, judge: Judge)
    ensures Serve([a, b, c], judge) == Feed(Feed(Feed(Kept(Idle(0), AtHeader, []), a, judge), b, judge), c, judge)
  {
    ServeTwo(a, b, judge);
    ServeNext([a, b], c, judge);
    assert [a, b] + [c] == [a, b, c];
  }

  lemma TypeZeroRefused(c: Common, data: seq<byte>, beyond: byte)
    requires c.kind == 0
    ensures Parse(Received(c), data, beyond).rc == Error
  {
    RunOnce(Config(Initial, 0, Received(c)), data, beyond);
  }
}
