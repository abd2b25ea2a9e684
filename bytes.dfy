/** Octets and the text they carry.

    The client keeps every datagram and every command as a C++ `std::string`,
    that is, as a run of 8-bit characters. The model keeps wire data as
    sequences of `Byte` and text as `string`, and converts between the two at
    the points where the source streams one into the other. */
module Bytes {

  /** One octet of a datagram. */
  type Byte = x: int | 0 <= x < 256

  /** A character written into a byte stream keeps its low eight bits. */
  function ByteOf(c: char): (b: Byte)
  {
    (c as int) % 256
  }

  /** True when every character of `s` fits in one octet. */
  predicate IsByteText(s: string)
  {
    forall i :: 0 <= i < |s| ==> (s[i] as int) < 256
  }

  /** The octets a text is streamed as. */
  function TextBytes(s: string): (b: seq<Byte>)
    ensures |b| == |s|
  {
    seq(|s|, i requires 0 <= i < |s| => ByteOf(s[i]))
  }

  /** The text a run of received octets is read back as. */
  function BytesText(b: seq<Byte>): (s: string)
    ensures |s| == |b|
    ensures IsByteText(s)
  {
    seq(|b|, i requires 0 <= i < |b| => (b[i] as char))
  }

  /** Reading received octets as text loses nothing. */
  lemma BytesTextRoundTrip(b: seq<Byte>)
    ensures TextBytes(BytesText(b)) == b
  {
    var t := TextBytes(BytesText(b));
    forall i | 0 <= i < |b| ensures t[i] == b[i] {
      assert BytesText(b)[i] == b[i] as char;
    }
  }

  /** Streaming a text of 8-bit characters and reading it back loses nothing. */
  lemma TextBytesRoundTrip(s: string)
    requires IsByteText(s)
    ensures BytesText(TextBytes(s)) == s
  {
    var t := BytesText(TextBytes(s));
    forall i | 0 <= i < |s| ensures t[i] == s[i] {
      assert TextBytes(s)[i] == s[i] as int;
    }
  }

  /** Streaming distributes over concatenation. */
  lemma TextBytesAppend(s: string, t: string)
    ensures TextBytes(s + t) == TextBytes(s) + TextBytes(t)
  {
    var l, r := TextBytes(s + t), TextBytes(s) + TextBytes(t);
    forall i | 0 <= i < |s + t| ensures l[i] == r[i] {
      if i < |s| {
        assert (s + t)[i] == s[i];
      } else {
        assert (s + t)[i] == t[i - |s|];
      }
    }
  }

  /** Reading back distributes over concatenation. */
  lemma BytesTextAppend(a: seq<Byte>, b: seq<Byte>)
    ensures BytesText(a + b) == BytesText(a) + BytesText(b)
  {
    var l, r := BytesText(a + b), BytesText(a) + BytesText(b);
    forall i | 0 <= i < |a + b| ensures l[i] == r[i] {
      if i < |a| {
        assert (a + b)[i] == a[i];
      } else {
        assert (a + b)[i] == b[i - |a|];
      }
    }
  }

  /** True when `s` holds no NUL character. */
  predicate NoNul(s: string)
  {
    forall i :: 0 <= i < |s| ==> s[i] != '\0'
  }

  /** What a C string copy of `s` holds: everything before its first NUL. */
  function CString(s: string): (c: string)
    ensures |c| <= |s| && c == s[..|c|]
    ensures NoNul(c)
    ensures |c| < |s| ==> s[|c|] == '\0'
  {
    if s == [] || s[0] == '\0' then [] else [s[0]] + CString(s[1..])
  }

  /** A text without NUL survives a C string copy whole. */
  lemma CStringOfNoNul(s: string)
    requires NoNul(s)
    ensures CString(s) == s
  {
  }

  /** The four octets of a 32-bit value, least significant first. */
  function LeBytes(v: nat): (b: seq<Byte>)
    requires v < 0x1_0000_0000
    ensures |b| == 4
  {
    [v % 256, (v / 0x100) % 256, (v / 0x1_0000) % 256, (v / 0x100_0000) % 256]
  }

  /** The 32-bit value four octets stand for, least significant first. */
  function LeValue(b: seq<Byte>): (v: nat)
    requires |b| == 4
    ensures v < 0x1_0000_0000
  {
    b[0] as int + 0x100 * b[1] as int + 0x1_0000 * b[2] as int + 0x100_0000 * b[3] as int
  }

  /** `LeBytes` and `LeValue` are inverse: a value survives the split into octets. */
  lemma LeValueOfLeBytes(v: nat)
    requires v < 0x1_0000_0000
    ensures LeValue(LeBytes(v)) == v
  {
    var q1, q2, q3 := v / 0x100, v / 0x1_0000, v / 0x100_0000;
    assert q2 == q1 / 0x100;
    assert q3 == q2 / 0x100;
    assert q3 < 256;
  }

  /** ... and four octets survive being joined into a value. */
  lemma LeBytesOfLeValue(b: seq<Byte>)
    requires |b| == 4
    ensures LeBytes(LeValue(b)) == b
  {
    var v := LeValue(b);
    var b0, b1, b2, b3: int := b[0], b[1], b[2], b[3];
    assert v / 0x100 == b1 + 0x100 * b2 + 0x1_0000 * b3;
    assert v / 0x1_0000 == b2 + 0x100 * b3;
    assert v / 0x100_0000 == b3;
  }
}
