/** The framing of the agent's replies: the Python server sends a two-byte
    big-endian length followed by the reply's UTF-8 bytes, and the Java
    gateway reads it with DataInputStream.readUTF, which expects the same
    length prefix followed by modified UTF-8.

    The two agree on every text of Basic Multilingual Plane characters
    whose encoding fits in the length field; a character outside that
    plane is encoded by Python in four bytes, which readUTF rejects.
 */
module Framing {
  import opened Wrappers

  newtype byte = x: int | 0 <= x < 256

  /** A UTF-16 code unit: what a Java char holds. */
  type Unit = x: int | 0 <= x < 0x1_0000

  /** The largest length two bytes can carry, plus one. */
  const LENGTH_LIMIT: int := 0x1_0000

  // ---------------------------------------------------------------------
  // Python: str.encode("UTF-8")

  /** The UTF-8 bytes of one character. */
  function EncodeChar(c: char): (b: seq<byte>)
    ensures 1 <= |b| <= 4
    ensures |b| == 1 <==> c as int < 0x80
    ensures c as int < 0x1_0000 ==> |b| <= 3
  {
    var v := c as int;
    if v < 0x80 then [v as byte]
    else if v < 0x800 then [(0xC0 + v / 64) as byte, (0x80 + v % 64) as byte]
    else if v < 0x1_0000 then [(0xE0 + v / 4096) as byte, (0x80 + (v / 64) % 64) as byte, (0x80 + v % 64) as byte]
    else [(0xF0 + v / 262144) as byte, (0x80 + (v / 4096) % 64) as byte, (0x80 + (v / 64) % 64) as byte, (0x80 + v % 64) as byte]
  }

  function Utf8(s: string): (b: seq<byte>)
    ensures |b| >= |s|
  {
    if |s| == 0 then [] else EncodeChar(s[0]) + Utf8(s[1..])
  }

  /** Every character of `s` lies in the Basic Multilingual Plane. */
  predicate Bmp(s: string) {
    forall k :: 0 <= k < |s| ==> s[k] as int < 0x1_0000
  }

  /** The Java string a text stands for: one code unit per BMP character. */
  function Units(s: string): (u: seq<Unit>)
    requires Bmp(s)
    ensures |u| == |s| && forall k :: 0 <= k < |s| ==> u[k] == s[k] as int
  {
    seq(|s|, k requires 0 <= k < |s| => s[k] as int)
  }

  /** Different texts are different Java strings. */
  lemma UnitsInjective(s: string, t: string)
    requires Bmp(s) && Bmp(t) && Units(s) == Units(t)
    ensures s == t
  {
    assert |s| == |Units(s)|;
    forall k | 0 <= k < |s|
      ensures s[k] == t[k]
    {
      assert Units(s)[k] == Units(t)[k];
    }
  }

  // ---------------------------------------------------------------------
  // Python: len(message).to_bytes(2, 'big') then the message

  /** The bytes sent for a reply; a payload of 65536 bytes or more does not
      fit the two-byte length and raises an overflow before anything is
      sent. */
  function Frame(text: string): (r: Result<seq<byte>>)
    ensures r.Fail? <==> |Utf8(text)| >= LENGTH_LIMIT
    ensures r.Fail? ==> r.fault == Overflow
    ensures r.Ok? ==> |r.value| == 2 + |Utf8(text)| && r.value[2..] == Utf8(text)
    ensures r.Ok? ==> r.value[0] as int * 256 + r.value[1] as int == |Utf8(text)|
  {
    var payload := Utf8(text);
    var n := |payload|;
    if n >= LENGTH_LIMIT then Fail(Overflow)
    else Ok([(n / 256) as byte, (n % 256) as byte] + payload)
  }

  // ---------------------------------------------------------------------
  // Java: DataInputStream.readUTF

  /** A continuation byte 10xxxxxx. */
  predicate Continuation(b: byte) {
    0x80 <= b < 0xC0
  }

  /** The payload decoded as modified UTF-8, dispatching on the top four
      bits of each lead byte: 0-7 one byte, 12-13 two, 14 three, anything
      else (a stray continuation byte, a four-byte lead) malformed; a
      sequence cut short by the end of the payload or with a bad
      continuation byte is malformed too. */
  function Decode(b: seq<byte>): (r: Result<seq<Unit>>)
    ensures r.Fail? ==> r.fault == MalformedInput
    ensures r.Ok? ==> |r.value| <= |b|
  {
    if |b| == 0 then Ok([])
    else
      var c := b[0] as int;
      if c < 0x80 then
        var rest :- Decode(b[1..]);
        Ok([c] + rest)
      else if 0xC0 <= c < 0xE0 then
        if |b| < 2 || !Continuation(b[1]) then Fail(MalformedInput)
        else
          var rest :- Decode(b[2..]);
          Ok([(c % 32) * 64 + b[1] as int % 64] + rest)
      else if 0xE0 <= c < 0xF0 then
        if |b| < 3 || !Continuation(b[1]) || !Continuation(b[2]) then Fail(MalformedInput)
        else
          var rest :- Decode(b[3..]);
          Ok([(c % 16) * 4096 + (b[1] as int % 64) * 64 + b[2] as int % 64] + rest)
      else Fail(MalformedInput)
  }

  /** readUTF: the unsigned two-byte length, then exactly that many payload
      bytes decoded; the rest of the stream is left unread. A stream that
      ends early is an end-of-file error, reported as malformed input. */
  function ReadUtf(stream: seq<byte>): (r: Result<(seq<Unit>, seq<byte>)>)
    ensures r.Fail? ==> r.fault == MalformedInput
    ensures r.Ok? ==> |stream| >= 2 && |stream| == 2 + stream[0] as int * 256 + stream[1] as int + |r.value.1|
    ensures r.Ok? ==> r.value.1 == stream[|stream| - |r.value.1|..]
  {
    if |stream| < 2 then Fail(MalformedInput)
    else
      var n := stream[0] as int * 256 + stream[1] as int;
      if |stream| < 2 + n then Fail(MalformedInput)
      else
        var units :- Decode(stream[2..2 + n]);
        Ok((units, stream[2 + n..]))
  }

  // ---------------------------------------------------------------------
  // The two sides agree

  /** One BMP character's UTF-8 bytes decode back to its code unit, in
      front of whatever the following bytes decode to. */
  lemma DecodeChar(c: char, rest: seq<byte>)
    requires c as int < 0x1_0000
    ensures Decode(EncodeChar(c) + rest).Ok? <==> Decode(rest).Ok?
    ensures Decode(rest).Ok? ==> Decode(EncodeChar(c) + rest).value == [c as int as Unit] + Decode(rest).value
  {
    var v := c as int;
    if v < 0x80 {
      DecodeLead(EncodeChar(c), rest, 1);
    } else if v < 0x800 {
      TwoByteUnit(v);
      DecodeLead(EncodeChar(c), rest, 2);
    } else {
      ThreeByteUnit(v);
      DecodeLead(EncodeChar(c), rest, 3);
    }
  }

  lemma TwoByteUnit(v: int)
    requires 0x80 <= v < 0x800
    ensures ((0xC0 + v / 64) % 32) * 64 + (0x80 + v % 64) % 64 == v
  {
  }

  lemma ThreeByteUnit(v: int)
    requires 0x800 <= v < 0x1_0000
    ensures ((0xE0 + v / 4096) % 16) * 4096 + ((0x80 + (v / 64) % 64) % 64) * 64 + (0x80 + v % 64) % 64 == v
  {
    assert (0xE0 + v / 4096) % 16 == v / 4096;
    assert (0x80 + (v / 64) % 64) % 64 == (v / 64) % 64;
    assert (0x80 + v % 64) % 64 == v % 64;
  }

  /** Decoding a well-formed sequence of `n` bytes in front of `rest`. */
  lemma DecodeLead(head: seq<byte>, rest: seq<byte>, n: nat)
    requires |head| == n && 1 <= n <= 3
    requires n == 1 ==> head[0] < 0x80
    requires n == 2 ==> 0xC0 <= head[0] < 0xE0 && Continuation(head[1])
    requires n == 3 ==> 0xE0 <= head[0] < 0xF0 && Continuation(head[1]) && Continuation(head[2])
    ensures Decode(head + rest).Ok? <==> Decode(rest).Ok?
    ensures Decode(rest).Ok? ==> Decode(head + rest).value == [LeadUnit(head)] + Decode(rest).value
  {
    assert (head + rest)[n..] == rest;
  }

  /** The code unit a well-formed one-, two- or three-byte sequence
      stands for. */
  function LeadUnit(head: seq<byte>): Unit
    requires 1 <= |head| <= 3
  {
    if |head| == 1 then head[0] as int % 0x80
    else if |head| == 2 then (head[0] as int % 32) * 64 + head[1] as int % 64
    else (head[0] as int % 16) * 4096 + (head[1] as int % 64) * 64 + head[2] as int % 64
  }

  /** The UTF-8 bytes of a BMP text decode to its code units. */
  lemma {:induction false} DecodeUtf8(s: string)
    requires Bmp(s)
    ensures Decode(Utf8(s)) == Ok(Units(s))
    decreases |s|
  {
    if |s| > 0 {
      var tail := Utf8(s[1..]);
      assert Utf8(s) == EncodeChar(s[0]) + tail;
      assert Bmp(s[1..]);
      DecodeUtf8(s[1..]);
      DecodeChar(s[0], tail);
      UnitsCons(s);
    }
  }

  /** The code units of a text are its first character's unit before the rest's. */
  lemma UnitsCons(s: string)
    requires Bmp(s) && |s| > 0
    ensures Bmp(s[1..]) && Units(s) == [s[0] as int as Unit] + Units(s[1..])
  {
    assert Bmp(s[1..]);
    assert Units(s) == [s[0] as int as Unit] + Units(s[1..]);
  }

  /** What the gateway reads from a framed BMP reply is the reply itself,
      and whatever follows the frame stays unread. */
  lemma FrameRoundTrip(text: string, rest: seq<byte>)
    requires Bmp(text) && Frame(text).Ok?
    ensures ReadUtf(Frame(text).value + rest) == Ok((Units(text), rest))
  {
    var f := Frame(text).value;
    var stream := f + rest;
    var n := |Utf8(text)|;
    assert stream[2..2 + n] == Utf8(text);
    assert stream[2 + n..] == rest;
    DecodeUtf8(text);
  }

  /** A character outside the BMP makes the gateway's read fail: Python's
      four-byte sequence starts with a lead byte readUTF rejects. */
  lemma {:induction false} SupplementaryRejected(s: string)
    requires !Bmp(s)
    ensures Decode(Utf8(s)).Fail?
    decreases |s|
  {
    if s[0] as int < 0x1_0000 {
      assert !Bmp(s[1..]) by {
        var k :| 0 <= k < |s| && s[k] as int >= 0x1_0000;
        assert s[1..][k - 1] == s[k];
      }
      SupplementaryRejected(s[1..]);
      DecodeChar(s[0], Utf8(s[1..]));
    } else {
      var v := s[0] as int;
      assert 0xF0 <= 0xF0 + v / 262144 < 0x100;
    }
  }

  /** ASCII text takes one byte per character. */
  lemma {:induction false} AsciiLength(s: string)
    requires forall k :: 0 <= k < |s| ==> s[k] as int < 0x80
    ensures |Utf8(s)| == |s| && Bmp(s)
    decreases |s|
  {
    if |s| > 0 {
      AsciiLength(s[1..]);
    }
  }
}
