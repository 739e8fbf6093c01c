/**
 * The standard base64 encoding of section 4 of RFC 4648, as Go's
 * `base64.StdEncoding` implements it: the alphabet `A-Z a-z 0-9 + /`,
 * `=` padding that is required, carriage returns and line feeds skipped
 * anywhere in the input when decoding, and the unused low bits of the last
 * character not checked (the encoding is not in strict mode).
 */
module Base64 {
  import opened Wrappers

  type byte = b: int | 0 <= b < 256

  const Pad: byte := 61  // '='
  const CR: byte := 13
  const LF: byte := 10

  /** The character that stands for the 6-bit value `v`. */
  function Sextet(v: int): (c: byte)
    requires 0 <= v < 64
    ensures c != Pad && c != CR && c != LF
  {
    if v < 26 then 65 + v          // 'A'..'Z'
    else if v < 52 then 97 + v - 26 // 'a'..'z'
    else if v < 62 then 48 + v - 52 // '0'..'9'
    else if v == 62 then 43         // '+'
    else 47                         // '/'
  }

  /** The 6-bit value of an alphabet character, None for any other byte. */
  function SextetValue(c: byte): (r: Option<int>)
    ensures r.Some? ==> 0 <= r.value < 64 && Sextet(r.value) == c
  {
    if 65 <= c <= 90 then Some(c - 65)
    else if 97 <= c <= 122 then Some(c - 71)
    else if 48 <= c <= 57 then Some(c + 4)
    else if c == 43 then Some(62)
    else if c == 47 then Some(63)
    else None
  }

  lemma SextetInverse(v: int)
    requires 0 <= v < 64
    ensures SextetValue(Sextet(v)) == Some(v)
  {
  }

  predicate InAlphabet(c: byte) {
    SextetValue(c).Some?
  }

  /** Encodes three bytes as four characters. */
  function EncodeBlock(x: byte, y: byte, z: byte): seq<byte> {
    [Sextet(x / 4), Sextet((x % 4) * 16 + y / 16), Sextet((y % 16) * 4 + z / 64), Sextet(z % 64)]
  }

  /** `base64.StdEncoding.EncodeToString`. */
  function Encode(s: seq<byte>): (r: seq<byte>)
    ensures |r| == 4 * ((|s| + 2) / 3)
    ensures forall i :: 0 <= i < |r| ==> InAlphabet(r[i]) || r[i] == Pad
    decreases |s|
  {
    if |s| == 0 then []
    else if |s| == 1 then [Sextet(s[0] / 4), Sextet((s[0] % 4) * 16), Pad, Pad]
    else if |s| == 2 then [Sextet(s[0] / 4), Sextet((s[0] % 4) * 16 + s[1] / 16), Sextet((s[1] % 16) * 4), Pad]
    else
      var rest := Encode(s[3..]);
      BlockInAlphabet(s[0], s[1], s[2]);
      EncodedLength(|s|);
      EncodeBlock(s[0], s[1], s[2]) + rest
  }

  lemma BlockInAlphabet(x: byte, y: byte, z: byte)
    ensures forall i :: 0 <= i < 4 ==> InAlphabet(EncodeBlock(x, y, z)[i])
  {
    SextetInverse(x / 4);
    SextetInverse((x % 4) * 16 + y / 16);
    SextetInverse((y % 16) * 4 + z / 64);
    SextetInverse(z % 64);
  }

  lemma EncodedLength(n: int)
    requires n >= 3
    ensures 4 + 4 * ((n - 3 + 2) / 3) == 4 * ((n + 2) / 3)
  {
    assert (n - 3 + 2) / 3 + 1 == (n + 2) / 3;
  }

  /** The encoding of four or more bytes is the first block followed by the encoding of the rest. */
  lemma EncodeSplit(s: seq<byte>)
    requires |s| > 3
    ensures |Encode(s)| > 4
    ensures Encode(s)[..4] == EncodeBlock(s[0], s[1], s[2])
    ensures Encode(s)[4..] == Encode(s[3..])
  {
    var e := Encode(s);
    assert e == EncodeBlock(s[0], s[1], s[2]) + Encode(s[3..]);
  }

  /** The input with every carriage return and line feed removed. */
  function StripNewlines(s: seq<byte>): (r: seq<byte>)
    ensures |r| <= |s|
    ensures forall i :: 0 <= i < |r| ==> r[i] != CR && r[i] != LF
  {
    if s == [] then []
    else if s[0] == CR || s[0] == LF then StripNewlines(s[1..])
    else [s[0]] + StripNewlines(s[1..])
  }

  /** Decodes a quad of four alphabet characters into three bytes. */
  function DecodeFull(q: seq<byte>): Option<seq<byte>>
    requires |q| == 4
  {
    var a, b, c, d := SextetValue(q[0]), SextetValue(q[1]), SextetValue(q[2]), SextetValue(q[3]);
    if a.None? || b.None? || c.None? || d.None? then None
    else Some([a.value * 4 + b.value / 16, (b.value % 16) * 16 + c.value / 4, (c.value % 4) * 64 + d.value])
  }

  /** Decodes the last quad, which may end in one or two padding characters. */
  function DecodeLast(q: seq<byte>): Option<seq<byte>>
    requires |q| == 4
  {
    var a, b := SextetValue(q[0]), SextetValue(q[1]);
    if a.None? || b.None? then None
    else if q[2] == Pad then
      if q[3] == Pad then Some([a.value * 4 + b.value / 16]) else None
    else
      var c := SextetValue(q[2]);
      if c.None? then None
      else if q[3] == Pad then Some([a.value * 4 + b.value / 16, (b.value % 16) * 16 + c.value / 4])
      else DecodeFull(q)
  }

  /** Decodes a newline-free text quad by quad; padding is allowed only in the last quad. */
  function DecodeQuads(s: seq<byte>): Option<seq<byte>>
    decreases |s|
  {
    if |s| == 0 then Some([])
    else if |s| < 4 then None
    else if |s| == 4 then DecodeLast(s)
    else match DecodeFull(s[..4])
      case None => None
      case Some(head) =>
        match DecodeQuads(s[4..])
        case None => None
        case Some(tail) => Some(head + tail)
  }

  /** `base64.StdEncoding.DecodeString`; None stands for Go's `CorruptInputError`. */
  function Decode(s: seq<byte>): (r: Option<seq<byte>>)
    ensures r.Some? <==> Valid(s)
  {
    DecodeQuadsSucceedsIffValid(StripNewlines(s));
    DecodeQuads(StripNewlines(s))
  }

  /** A quad that may stand anywhere but at the end. */
  predicate ValidFull(q: seq<byte>)
    requires |q| == 4
  {
    InAlphabet(q[0]) && InAlphabet(q[1]) && InAlphabet(q[2]) && InAlphabet(q[3])
  }

  /** A quad that may end the text: `xxxx`, `xxx=` or `xx==`. */
  predicate ValidLast(q: seq<byte>)
    requires |q| == 4
  {
    InAlphabet(q[0]) && InAlphabet(q[1]) &&
    ((q[2] == Pad && q[3] == Pad) || (InAlphabet(q[2]) && (q[3] == Pad || InAlphabet(q[3]))))
  }

  /** Well-formed newline-free text: whole quads, padding only at the very end. */
  predicate ValidQuads(s: seq<byte>)
    decreases |s|
  {
    |s| % 4 == 0 &&
    (|s| == 0 || (|s| == 4 && ValidLast(s)) || (|s| > 4 && ValidFull(s[..4]) && ValidQuads(s[4..])))
  }

  /** Text that the standard decoder accepts. */
  predicate Valid(s: seq<byte>) {
    ValidQuads(StripNewlines(s))
  }

  /** Decoding succeeds exactly on valid text. */
  lemma {:induction false} DecodeQuadsSucceedsIffValid(s: seq<byte>)
    ensures DecodeQuads(s).Some? <==> ValidQuads(s)
    decreases |s|
  {
    if |s| > 4 {
      DecodeQuadsSucceedsIffValid(s[4..]);
    }
  }

  lemma DecodeSucceedsIffValid(s: seq<byte>)
    ensures Decode(s).Some? <==> Valid(s)
  {
    DecodeQuadsSucceedsIffValid(StripNewlines(s));
  }

  /** Text whose length, newlines aside, is not a multiple of four is refused. */
  lemma DecodeRejectsPartialQuad(s: seq<byte>)
    requires |StripNewlines(s)| % 4 != 0
    ensures Decode(s).None?
  {
    DecodeSucceedsIffValid(s);
  }

  lemma {:induction false} StripNewlinesOfEncoded(s: seq<byte>)
    requires forall i :: 0 <= i < |s| ==> s[i] != CR && s[i] != LF
    ensures StripNewlines(s) == s
  {
    if s != [] {
      StripNewlinesOfEncoded(s[1..]);
    }
  }

  lemma DecodeBlock(x: byte, y: byte, z: byte)
    ensures DecodeFull(EncodeBlock(x, y, z)) == Some([x, y, z])
  {
    var q := EncodeBlock(x, y, z);
    SextetInverse(x / 4);
    SextetInverse((x % 4) * 16 + y / 16);
    SextetInverse((y % 16) * 4 + z / 64);
    SextetInverse(z % 64);
    assert ((x % 4) * 16 + y / 16) / 16 == x % 4;
    assert ((x % 4) * 16 + y / 16) % 16 == y / 16;
    assert ((y % 16) * 4 + z / 64) / 4 == y % 16;
    assert ((y % 16) * 4 + z / 64) % 4 == z / 64;
  }

  lemma DecodeOneByte(x: byte)
    ensures DecodeQuads(Encode([x])) == Some([x])
  {
    var b := (x % 4) * 16;
    SextetInverse(x / 4);
    SextetInverse(b);
    assert b / 16 == x % 4;
    var q := Encode([x]);
    assert q == [Sextet(x / 4), Sextet(b), Pad, Pad];
    assert DecodeLast(q) == Some([(x / 4) * 4 + b / 16]);
  }

  lemma DecodeTwoBytes(x: byte, y: byte)
    ensures DecodeQuads(Encode([x, y])) == Some([x, y])
  {
    var b := (x % 4) * 16 + y / 16;
    var c := (y % 16) * 4;
    SextetInverse(x / 4);
    SextetInverse(b);
    SextetInverse(c);
    assert b / 16 == x % 4 && b % 16 == y / 16 && c / 4 == y % 16;
    var q := Encode([x, y]);
    assert q == [Sextet(x / 4), Sextet(b), Sextet(c), Pad];
    assert DecodeLast(q) == Some([(x / 4) * 4 + b / 16, (b % 16) * 16 + c / 4]);
  }

  lemma DecodeThreeBytes(x: byte, y: byte, z: byte)
    ensures DecodeQuads(Encode([x, y, z])) == Some([x, y, z])
  {
    var e := Encode([x, y, z]);
    DecodeBlock(x, y, z);
    assert e == EncodeBlock(x, y, z) + Encode([]);
    assert DecodeLast(e) == DecodeFull(e);
  }

  lemma SplitThree(s: seq<byte>)
    requires |s| >= 3
    ensures s == [s[0], s[1], s[2]] + s[3..]
  {
  }

  lemma {:induction false} DecodeQuadsEncode(s: seq<byte>)
    ensures DecodeQuads(Encode(s)) == Some(s)
    decreases |s|
  {
    if |s| == 1 {
      DecodeOneByte(s[0]);
      assert s == [s[0]];
    } else if |s| == 2 {
      DecodeTwoBytes(s[0], s[1]);
      assert s == [s[0], s[1]];
    } else if |s| == 3 {
      DecodeThreeBytes(s[0], s[1], s[2]);
      assert s == [s[0], s[1], s[2]];
    } else if |s| > 3 {
      DecodeQuadsEncode(s[3..]);
      DecodeQuadsEncodeStep(s);
    }
  }

  /** One block more: the first three bytes decode from the first quad, the rest by the hypothesis. */
  lemma DecodeQuadsEncodeStep(s: seq<byte>)
    requires |s| > 3 && DecodeQuads(Encode(s[3..])) == Some(s[3..])
    ensures DecodeQuads(Encode(s)) == Some(s)
  {
    var e := Encode(s);
    EncodeSplit(s);
    DecodeBlock(s[0], s[1], s[2]);
    DecodeQuadsCons(e);
    SplitThree(s);
  }

  lemma DecodeQuadsCons(e: seq<byte>)
    requires |e| > 4 && DecodeFull(e[..4]).Some? && DecodeQuads(e[4..]).Some?
    ensures DecodeQuads(e) == Some(DecodeFull(e[..4]).value + DecodeQuads(e[4..]).value)
  {
  }

  /** Decoding the encoding of any byte string gives it back. */
  lemma RoundTrip(s: seq<byte>)
    ensures Decode(Encode(s)) == Some(s)
  {
    StripNewlinesOfEncoded(Encode(s));
    DecodeQuadsEncode(s);
  }
}
