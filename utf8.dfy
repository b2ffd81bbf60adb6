/** UTF-8 as Python's `str.encode("utf-8")` and strict `bytes.decode("utf-8")` do it. */
module Utf8 {
  import opened Wire

  function EncodeChar(c: char): (r: seq<byte>)
    ensures 1 <= |r| <= 4
    ensures |r| == 1 <==> (c as int) < 0x80
  {
    var n := c as int;
    if n < 0x80 then [n]
    else if n < 0x800 then [0xC0 + n / 64, 0x80 + n % 64]
    else if n < 0x1_0000 then [0xE0 + n / 4096, 0x80 + (n / 64) % 64, 0x80 + n % 64]
    else [0xF0 + n / 262144, 0x80 + (n / 4096) % 64, 0x80 + (n / 64) % 64, 0x80 + n % 64]
  }

  function Encode(s: string): (r: seq<byte>)
    ensures |r| >= |s|
  {
    if s == [] then [] else EncodeChar(s[0]) + Encode(s[1..])
  }

  predicate IsAscii(s: string)
  {
    forall i :: 0 <= i < |s| ==> (s[i] as int) < 0x80
  }

  predicate Cont(b: byte)
  {
    0x80 <= b < 0xC0
  }

  /** Strict decoding: overlong forms, surrogates, code points past U+10FFFF and
      truncated sequences are rejected, as Python's decoder rejects them. */
  function Decode(b: seq<byte>): (r: Option<string>)
  {
    DecodeFrom(b, 0)
  }

  /** Decoding of `b[i..]`, one character at a time. */
  function DecodeFrom(b: seq<byte>, i: nat): (r: Option<string>)
    decreases |b| - i
  {
    if i >= |b| then Some([])
    else
      var b0: int := b[i];
      if b0 < 0x80 then
        Prepend(b0 as char, DecodeFrom(b, i + 1))
      else if 0xC2 <= b0 <= 0xDF && i + 1 < |b| && Cont(b[i + 1]) then
        Prepend(((b0 - 0xC0) * 64 + (b[i + 1] as int - 0x80)) as char, DecodeFrom(b, i + 2))
      else if 0xE0 <= b0 <= 0xEF && i + 2 < |b| && Cont(b[i + 1]) && Cont(b[i + 2])
              && (b0 == 0xE0 ==> b[i + 1] >= 0xA0) && (b0 == 0xED ==> b[i + 1] < 0xA0) then
        Prepend(((b0 - 0xE0) * 4096 + (b[i + 1] as int - 0x80) * 64 + (b[i + 2] as int - 0x80)) as char,
                DecodeFrom(b, i + 3))
      else if 0xF0 <= b0 <= 0xF4 && i + 3 < |b| && Cont(b[i + 1]) && Cont(b[i + 2]) && Cont(b[i + 3])
              && (b0 == 0xF0 ==> b[i + 1] >= 0x90) && (b0 == 0xF4 ==> b[i + 1] < 0x90) then
        Prepend(((b0 - 0xF0) * 262144 + (b[i + 1] as int - 0x80) * 4096 + (b[i + 2] as int - 0x80) * 64
                 + (b[i + 3] as int - 0x80)) as char,
                DecodeFrom(b, i + 4))
      else None
  }

  function Prepend(c: char, rest: Option<string>): Option<string>
  {
    if rest.Some? then Some([c] + rest.value) else None
  }

  /** For one-byte characters the UTF-8 form is the characters' codes, one byte each. */
  lemma {:induction false} AsciiEncode(s: string)
    requires IsAscii(s)
    ensures |Encode(s)| == |s|
    ensures forall i :: 0 <= i < |s| ==> Encode(s)[i] == s[i] as int
  {
    if s != [] {
      assert IsAscii(s[1..]) by {
        forall i | 0 <= i < |s| - 1 ensures (s[1..][i] as int) < 0x80 { assert s[1..][i] == s[i + 1]; }
      }
      AsciiEncode(s[1..]);
    }
  }

  lemma AsciiLength(s: string)
    requires IsAscii(s)
    ensures |Encode(s)| == |s|
  {
    AsciiEncode(s);
  }

  /** Decoding the UTF-8 form of a one-byte-character string gives the string back. */
  lemma AsciiRoundTrip(s: string)
    requires IsAscii(s)
    ensures Decode(Encode(s)) == Some(s)
  {
    AsciiEncode(s);
    AsciiDecodeFrom(Encode(s), s, 0);
    assert s[0..] == s;
  }

  lemma {:induction false} AsciiDecodeFrom(b: seq<byte>, s: string, i: nat)
    requires |b| == |s| && i <= |s|
    requires forall k :: 0 <= k < |s| ==> b[k] == s[k] as int && (s[k] as int) < 0x80
    ensures DecodeFrom(b, i) == Some(s[i..])
    decreases |s| - i
  {
    if i < |s| {
      AsciiDecodeFrom(b, s, i + 1);
      assert [s[i]] + s[i + 1..] == s[i..];
    }
  }

  /** "é" (U+00E9) takes two bytes: its UTF-8 form is longer than the string. */
  lemma TwoByteChar()
    ensures Encode("é") == [0xC3, 0xA9]
    ensures Decode([0xC3]) == None
  {
  }
}
