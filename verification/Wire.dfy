/** The integers and strings of the wire format: the variable-length Remaining Length (section 2.2.3 of MQTT 3.1.1)
    and the length-prefixed strings (section 1.5.3), as the broker writes and reads them. */
module Wire {

  type byte = b: int | 0 <= b < 256

  // ---------- Remaining Length ----------

  const MAX_LENGTH := 268435455

  /** What the serialiser's loop emits: seven bits at a time, the eighth set on all but the last. */
  function EncodeLength(n: nat): (bytes: seq<byte>)
    ensures |bytes| >= 1
  {
    if n / 128 > 0 then [n % 128 + 128] + EncodeLength(n / 128) else [n % 128]
  }

  /** How many bytes mqtt_serialiser_size counts for the field: none at all past the maximum. */
  function LengthSize(n: nat): nat
  {
    if n <= 127 then 1
    else if n <= 16383 then 2
    else if n <= 2097151 then 3
    else if n <= MAX_LENGTH then 4
    else 0
  }

  function Pow128(k: nat): (p: nat)
    ensures p >= 1
  {
    if k == 0 then 1 else 128 * Pow128(k - 1)
  }

  /** The field as a number, whatever the continuation bits. */
  function LengthValue(bytes: seq<byte>): nat
  {
    if bytes == [] then 0 else bytes[0] % 128 + 128 * LengthValue(bytes[1..])
  }

  /** A complete field: the continuation bit on all bytes but the last. */
  predicate IsLengthField(bytes: seq<byte>)
  {
    bytes != [] && bytes[|bytes| - 1] < 128 && forall i | 0 <= i < |bytes| - 1 :: bytes[i] >= 128
  }

  /** The first byte of a field of several, and the rest. */
  lemma EncodeParts(n: nat)
    requires n / 128 > 0
    ensures var e := EncodeLength(n); e[0] == n % 128 + 128 && e[1..] == EncodeLength(n / 128) && |e| == 1 + |EncodeLength(n / 128)|
  {
  }

  lemma LowBits(n: nat, b: byte)
    requires b == n % 128 + 128
    ensures b % 128 + 128 * (n / 128) == n && b >= 128
  {
    assert b % 128 == n % 128;
  }

  lemma FieldCons(b: byte, rest: seq<byte>)
    requires b >= 128 && IsLengthField(rest)
    ensures IsLengthField([b] + rest)
  {
  }

  lemma {:induction false} EncodeIsField(n: nat)
    ensures IsLengthField(EncodeLength(n)) && LengthValue(EncodeLength(n)) == n
  {
    if n / 128 > 0 {
      EncodeIsField(n / 128);
      EncodeParts(n);
      var e := EncodeLength(n);
      LowBits(n, e[0]);
      FieldCons(e[0], EncodeLength(n / 128));
      assert e == [e[0]] + EncodeLength(n / 128);
    } else {
      assert EncodeLength(n) == [n] && [n][1..] == [];
    }
  }

  /** No field of fewer bytes has the value: the encoding is minimal. */
  lemma {:induction false} EncodeIsMinimal(n: nat, bytes: seq<byte>)
    requires bytes != [] && LengthValue(bytes) == n
    ensures |EncodeLength(n)| <= |bytes|
  {
    if n / 128 > 0 {
      if |bytes| > 1 {
        EncodeIsMinimal(n / 128, bytes[1..]);
      }
    }
  }

  /** The size thresholds agree with the encoder exactly up to the maximum. */
  lemma LengthSizeExact(n: nat)
    ensures LengthSize(n) == |EncodeLength(n)| <==> n <= MAX_LENGTH
    ensures n <= MAX_LENGTH <==> |EncodeLength(n)| <= 4
  {
    assert n / 128 == 0 || EncodeLength(n)[1..] == EncodeLength(n / 128);
    var a := n / 128;
    var b := a / 128;
    var c := b / 128;
    assert |EncodeLength(n)| == if a > 0 then 1 + |EncodeLength(a)| else 1;
    assert |EncodeLength(a)| == if b > 0 then 1 + |EncodeLength(b)| else 1;
    assert |EncodeLength(b)| == if c > 0 then 1 + |EncodeLength(c)| else 1;
    assert |EncodeLength(c)| == if c / 128 > 0 then 1 + |EncodeLength(c / 128)| else 1;
  }

  /** The limits of table 2.4 of MQTT 3.1.1. */
  lemma LengthTable()
    ensures EncodeLength(0) == [0] && EncodeLength(127) == [127]
    ensures EncodeLength(128) == [0x80, 0x01] && EncodeLength(16383) == [0xFF, 0x7F]
    ensures EncodeLength(16384) == [0x80, 0x80, 0x01] && EncodeLength(2097151) == [0xFF, 0xFF, 0x7F]
    ensures EncodeLength(2097152) == [0x80, 0x80, 0x80, 0x01] && EncodeLength(MAX_LENGTH) == [0xFF, 0xFF, 0xFF, 0x7F]
  {
    assert EncodeLength(1) == [1];
    assert EncodeLength(16384) == [128] + EncodeLength(128);
    assert EncodeLength(16383) == [255] + EncodeLength(127);
    assert EncodeLength(2097152) == [128] + EncodeLength(16384);
    assert EncodeLength(2097151) == [255] + EncodeLength(16383);
    assert EncodeLength(MAX_LENGTH) == [255] + EncodeLength(2097151);
  }

  datatype Length = Short | TooLong | Length(value: nat, size: nat)

  /** The field at the front of a byte string: at most four bytes, else it is rejected. */
  function DecodeLength(bytes: seq<byte>): (r: Length)
    ensures r.Length? ==> 1 <= r.size <= 4 && r.size <= |bytes|
  {
    DecodeFrom(bytes, 0)
  }

  /** The number of leading bytes, at most four, that carry the continuation bit decides. */
  function DecodeFrom(bytes: seq<byte>, k: nat): (r: Length)
    requires k <= 4 && k <= |bytes|
    ensures r.Length? ==> k < r.size <= 4 && r.size <= |bytes|
    decreases 4 - k
  {
    if k == |bytes| then Short
    else if k == 4 then TooLong
    else if bytes[k] < 128 then Length(LengthValue(bytes[..k + 1]), k + 1)
    else DecodeFrom(bytes, k + 1)
  }

  /** All of the first k bytes carry the continuation bit. */
  predicate Continued(bytes: seq<byte>, k: nat)
  {
    k <= |bytes| && forall i | 0 <= i < k :: bytes[i] >= 128
  }

  lemma {:induction false} DecodeSkips(bytes: seq<byte>, from: nat, k: nat)
    requires from <= k <= 4 && Continued(bytes, k)
    ensures DecodeFrom(bytes, from) == DecodeFrom(bytes, k)
    decreases k - from
  {
    if from < k {
      DecodeSkips(bytes, from + 1, k);
    }
  }

  /** The decoder finds exactly the fields: a field of up to four bytes gives its value, more bytes after it or not. */
  lemma DecodeField(field: seq<byte>, rest: seq<byte>)
    requires IsLengthField(field) && |field| <= 4
    ensures DecodeLength(field + rest) == Length(LengthValue(field), |field|)
  {
    var all := field + rest;
    var k := |field| - 1;
    DecodeSkips(all, 0, k);
    assert all[..k + 1] == field;
  }

  lemma DecodeEncode(n: nat, rest: seq<byte>)
    requires n <= MAX_LENGTH
    ensures DecodeLength(EncodeLength(n) + rest) == Length(n, LengthSize(n))
  {
    LengthSizeExact(n);
    EncodeIsField(n);
    DecodeField(EncodeLength(n), rest);
  }

  /** Bytes so far cannot decide, or are rejected at the fifth byte of a field. */
  lemma DecodeContinued(bytes: seq<byte>)
    requires Continued(bytes, if |bytes| <= 4 then |bytes| else 4)
    ensures |bytes| <= 4 ==> DecodeLength(bytes).Short?
    ensures |bytes| > 4 ==> DecodeLength(bytes).TooLong?
  {
    DecodeSkips(bytes, 0, if |bytes| <= 4 then |bytes| else 4);
  }

  /** One more byte of the field, as the read loop adds it up. */
  lemma {:induction false} LengthValueAppend(bytes: seq<byte>, b: byte)
    ensures LengthValue(bytes + [b]) == LengthValue(bytes) + b % 128 * Pow128(|bytes|)
  {
    if bytes == [] {
      assert LengthValue([b][1..]) == 0;
    } else {
      assert (bytes + [b])[1..] == bytes[1..] + [b];
      LengthValueAppend(bytes[1..], b);
      var x, p := b % 128, Pow128(|bytes| - 1);
      assert 128 * (x * p) == x * (128 * p);
    }
  }

  // ---------- strings ----------

  /** Two bytes as a number, high byte first. */
  function Word(high: byte, low: byte): (w: nat)
    ensures w <= 65535
  {
    high as int * 256 + low as int
  }

  /** How a string stands on the wire: two length bytes, high first, then the characters. */
  function String(s: seq<byte>): seq<byte>
    requires |s| <= 65535
  {
    [|s| / 256, |s| % 256] + s
  }

  /** How WRITE_STRING puts it there: the high byte is length / 0xff, cut to eight bits. */
  function WrittenString(s: seq<byte>): seq<byte>
  {
    [|s| / 255 % 256, |s| % 256] + s
  }

  /** The lengths whose two bytes come out right. */
  predicate GoodLength(n: nat) { n <= 65535 && n / 256 + n % 256 < 255 }

  lemma WrittenLengthExact(n: nat)
    requires n <= 65535
    ensures n / 255 % 256 * 256 + n % 256 == n <==> GoodLength(n)
    ensures n <= 254 ==> GoodLength(n)
  {
    var a, b := n / 256, n % 256;
    assert n == 255 * a + (a + b);
    assert a <= 255;
    assert n / 255 == a + (a + b) / 255;
  }

  lemma WrittenStringExact(s: seq<byte>)
    requires |s| <= 65535
    ensures WrittenString(s) == String(s) <==> GoodLength(|s|)
  {
    WrittenLengthExact(|s|);
    if WrittenString(s) == String(s) {
      assert WrittenString(s)[0] == String(s)[0];
    }
  }

  datatype Read = Truncated | Text(s: seq<byte>, next: nat)

  /** READ_STRING at a place in the data. */
  function ReadString(data: seq<byte>, at: nat): (r: Read)
    requires at <= |data|
    ensures r.Text? ==> at + 2 <= r.next <= |data| && r.s == data[at + 2..r.next]
  {
    if |data| - at < 2 then Truncated
    else
      var length := Word(data[at], data[at + 1]);
      if |data| - at - 2 < length then Truncated
      else Text(data[at + 2..at + 2 + length], at + 2 + length)
  }

  /** READ_STRING finds exactly the strings on the wire. */
  lemma ReadStringExact(data: seq<byte>, at: nat, s: seq<byte>)
    requires at <= |data|
    ensures ReadString(data, at) == Text(s, at + 2 + |s|) <==>
            |s| <= 65535 && at + 2 + |s| <= |data| && data[at..at + 2 + |s|] == String(s)
  {
    if |s| <= 65535 && at + 2 + |s| <= |data| && data[at..at + 2 + |s|] == String(s) {
      var wire := data[at..at + 2 + |s|];
      assert wire[0] == data[at] && wire[1] == data[at + 1];
      assert wire[2..] == data[at + 2..at + 2 + |s|] && String(s)[2..] == s;
    }
    if ReadString(data, at) == Text(s, at + 2 + |s|) {
      assert data[at..at + 2 + |s|] == [data[at], data[at + 1]] + data[at + 2..at + 2 + |s|];
    }
  }

  /** A written string is read back exactly when its length is a good one. */
  lemma WrittenStringReadBack(before: seq<byte>, s: seq<byte>, after: seq<byte>)
    requires |s| <= 65535
    ensures ReadString(before + WrittenString(s) + after, |before|) == Text(s, |before| + 2 + |s|) <==> GoodLength(|s|)
  {
    var data := before + WrittenString(s) + after;
    assert data[|before|..|before| + 2 + |s|] == WrittenString(s);
    ReadStringExact(data, |before|, s);
    WrittenStringExact(s);
  }
}
