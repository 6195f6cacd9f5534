/** Control packets in a byte stream: what a decoder that sees the whole stream at once finds there. */
module Frames {
  import opened Wire

  datatype Frame = Frame(header: byte, payload: seq<byte>)

  datatype First = NeedMore | Bad | Complete(frame: Frame, size: nat)

  /** The packet at the front: the header byte, the Remaining Length and as many bytes as it says. */
  function FirstFrame(s: seq<byte>): (r: First)
    ensures r.Complete? ==> 2 <= r.size <= |s|
  {
    if s == [] then NeedMore
    else
      match DecodeLength(s[1..])
      case Short => NeedMore
      case TooLong => Bad
      case Length(n, k) =>
        if |s| < 1 + k + n then NeedMore else Complete(Frame(s[0], s[1 + k..1 + k + n]), 1 + k + n)
  }

  /** All the packets of a stream, the bytes of one not yet complete, and whether a length field was malformed. */
  datatype Decoded = Decoded(frames: seq<Frame>, rest: seq<byte>, bad: bool)

  function Decode(s: seq<byte>): Decoded
    decreases |s|
  {
    match FirstFrame(s)
    case NeedMore => Decoded([], s, false)
    case Bad => Decoded([], s, true)
    case Complete(frame, size) =>
      Cons(frame, Decode(s[size..]))
  }

  function Cons(frame: Frame, d: Decoded): Decoded
  {
    d.(frames := [frame] + d.frames)
  }

  /** Decoding that goes on from what was left over. */
  function Then(d: Decoded, more: seq<byte>): Decoded
  {
    if d.bad then Decoded(d.frames, d.rest + more, true)
    else
      var e := Decode(d.rest + more);
      Decoded(d.frames + e.frames, e.rest, e.bad)
  }

  // ---------- more bytes ----------

  lemma {:induction false} DecodeFromAppend(a: seq<byte>, b: seq<byte>, k: nat)
    requires k <= 4 && k <= |a|
    ensures !DecodeFrom(a, k).Short? ==> DecodeFrom(a + b, k) == DecodeFrom(a, k)
    decreases 4 - k
  {
    if k < |a| && k < 4 {
      assert (a + b)[..k + 1] == a[..k + 1];
      if a[k] >= 128 {
        DecodeFromAppend(a, b, k + 1);
      }
    }
  }

  /** A packet that is there stays there. */
  lemma FirstFrameAppend(a: seq<byte>, b: seq<byte>)
    ensures !FirstFrame(a).NeedMore? ==> FirstFrame(a + b) == FirstFrame(a)
  {
    if a != [] {
      assert (a + b)[1..] == a[1..] + b;
      DecodeFromAppend(a[1..], b, 0);
      var r := FirstFrame(a);
      if r.Complete? {
        var k := DecodeLength(a[1..]).size;
        assert (a + b)[1 + k..r.size] == a[1 + k..r.size];
      }
    }
  }

  lemma ThenCons(frame: Frame, d: Decoded, more: seq<byte>)
    ensures Then(Cons(frame, d), more) == Cons(frame, Then(d, more))
  {
    if !d.bad {
      assert ([frame] + d.frames) + Decode(d.rest + more).frames == [frame] + (d.frames + Decode(d.rest + more).frames);
    }
  }

  lemma ThenOpen(a: seq<byte>, b: seq<byte>)
    requires !FirstFrame(a).Complete?
    ensures Decode(a + b) == Then(Decode(a), b)
  {
    FirstFrameAppend(a, b);
    assert [] + Decode(a + b).frames == Decode(a + b).frames;
  }

  /** A stream may be decoded in two parts. */
  lemma {:induction false} DecodeAppend(a: seq<byte>, b: seq<byte>)
    ensures Decode(a + b) == Then(Decode(a), b)
    decreases |a|
  {
    var r := FirstFrame(a);
    if r.Complete? {
      FirstFrameAppend(a, b);
      assert (a + b)[r.size..] == a[r.size..] + b;
      DecodeAppend(a[r.size..], b);
      ThenCons(r.frame, Decode(a[r.size..]), b);
    } else {
      ThenOpen(a, b);
    }
  }

  lemma {:induction false} RestIsOpen(a: seq<byte>)
    ensures var d := Decode(a); if d.bad then FirstFrame(d.rest).Bad? else FirstFrame(d.rest).NeedMore?
    decreases |a|
  {
    var r := FirstFrame(a);
    if r.Complete? {
      RestIsOpen(a[r.size..]);
    }
  }

  /** The bytes so far make no packet yet. */
  lemma StillOpen(s: seq<byte>, frames: seq<Frame>, partial: seq<byte>, chunk: seq<byte>)
    requires Decode(s) == Decoded(frames, partial, false) && FirstFrame(partial + chunk).NeedMore?
    ensures Decode(s + chunk) == Decoded(frames, partial + chunk, false)
  {
    DecodeAppend(s, chunk);
    assert frames + [] == frames;
  }

  /** The bytes so far are one more packet, and nothing else. */
  lemma Closes(s: seq<byte>, frames: seq<Frame>, partial: seq<byte>, chunk: seq<byte>, frame: Frame)
    requires Decode(s) == Decoded(frames, partial, false)
    requires FirstFrame(partial + chunk) == Complete(frame, |partial + chunk|)
    ensures Decode(s + chunk) == Decoded(frames + [frame], [], false)
  {
    DecodeAppend(s, chunk);
    var all := partial + chunk;
    assert all[|all|..] == [];
    assert Decode(all[|all|..]) == Decoded([], [], false);
  }

  lemma Breaks(s: seq<byte>, frames: seq<Frame>, partial: seq<byte>, chunk: seq<byte>)
    requires Decode(s) == Decoded(frames, partial, false) && FirstFrame(partial + chunk).Bad?
    ensures Decode(s + chunk) == Decoded(frames, partial + chunk, true)
  {
    DecodeAppend(s, chunk);
    assert frames + [] == frames;
  }

  // ---------- the parts of a packet ----------

  /** A header byte and up to four length bytes that all ask for another one. */
  lemma LengthOpen(h: byte, field: seq<byte>)
    requires Continued(field, |field|) && |field| <= 4
    ensures FirstFrame([h] + field).NeedMore?
  {
    assert ([h] + field)[1..] == field;
    DecodeContinued(field);
  }

  lemma FifthByte(h: byte, field: seq<byte>, b: byte)
    requires Continued(field, |field|) && |field| == 4
    ensures FirstFrame([h] + field + [b]).Bad?
  {
    assert ([h] + field + [b])[1..] == field + [b];
    DecodeContinued(field + [b]);
  }

  /** A header byte, a length field and part of the payload. */
  lemma PayloadOpen(h: byte, field: seq<byte>, payload: seq<byte>)
    requires IsLengthField(field) && |field| <= 4 && |payload| <= LengthValue(field)
    ensures var s := [h] + field + payload;
            FirstFrame(s) == if |payload| < LengthValue(field) then NeedMore else Complete(Frame(h, payload), |s|)
  {
    var s := [h] + field + payload;
    assert s[1..] == field + payload;
    DecodeField(field, payload);
    assert s[1 + |field|..1 + |field| + |payload|] == payload;
  }

  // ---------- packets on the wire ----------

  /** A packet as it stands in a stream. */
  function OnWire(f: Frame): seq<byte>
  {
    [f.header] + EncodeLength(|f.payload|) + f.payload
  }

  function AllOnWire(frames: seq<Frame>): seq<byte>
  {
    if frames == [] then [] else OnWire(frames[0]) + AllOnWire(frames[1..])
  }

  predicate LengthsFit(frames: seq<Frame>)
  {
    forall i | 0 <= i < |frames| :: |frames[i].payload| <= MAX_LENGTH
  }

  lemma FirstOnWire(f: Frame, rest: seq<byte>)
    requires |f.payload| <= MAX_LENGTH
    ensures FirstFrame(OnWire(f) + rest) == Complete(f, |OnWire(f)|)
  {
    var n := |f.payload|;
    LengthSizeExact(n);
    EncodeIsField(n);
    PayloadOpen(f.header, EncodeLength(n), f.payload);
    FirstFrameAppend(OnWire(f), rest);
  }

  /** A stream of packets is decoded into them, whatever is left of it cut off at the end. */
  lemma {:induction false} DecodeAllOnWire(frames: seq<Frame>)
    requires LengthsFit(frames)
    ensures Decode(AllOnWire(frames)) == Decoded(frames, [], false)
  {
    if frames != [] {
      var rest := AllOnWire(frames[1..]);
      FirstOnWire(frames[0], rest);
      assert (OnWire(frames[0]) + rest)[|OnWire(frames[0])|..] == rest;
      DecodeAllOnWire(frames[1..]);
    }
  }

  /** Whoever has received part of a stream of packets has decoded a beginning of them, and no other packet. */
  lemma DecodePrefix(frames: seq<Frame>, s: seq<byte>)
    requires LengthsFit(frames) && s <= AllOnWire(frames)
    ensures !Decode(s).bad && Decode(s).frames <= frames
  {
    var all := AllOnWire(frames);
    DecodeAllOnWire(frames);
    assert all == s + all[|s|..];
    DecodeAppend(s, all[|s|..]);
  }
}
