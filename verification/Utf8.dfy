/** UTF-8, section 3 of RFC 3629.  A Dafny char is a Unicode scalar value, so a
    string is exactly a text that Python can encode. */
module Utf8 {
  import opened Bytes

  predicate Continuation(b: byte) { 0x80 <= b < 0xC0 }

  predicate Scalar(v: int) { 0 <= v < 0xD800 || 0xE000 <= v < 0x11_0000 }

  function EncodeChar(c: char): (r: bytes)
    ensures r != []
  {
    var v := c as int;
    if v < 0x80 then [v]
    else if v < 0x800 then [0xC0 + v / 64, 0x80 + v % 64]
    else if v < 0x1_0000 then [0xE0 + v / 4096, 0x80 + v / 64 % 64, 0x80 + v % 64]
    else [0xF0 + v / 0x4_0000, 0x80 + v / 4096 % 64, 0x80 + v / 64 % 64, 0x80 + v % 64]
  }

  /** s.encode("utf-8") */
  function Encode(s: string): bytes {
    if s == [] then [] else EncodeChar(s[0]) + Encode(s[1..])
  }

  /** Six-bit groups, most significant first. */
  function Join2(a: int, b: int): int { a * 64 + b }

  function Join3(a: int, b: int, c: int): int { a * 4096 + b * 64 + c }

  function Join4(a: int, b: int, c: int, d: int): int { a * 0x4_0000 + b * 4096 + c * 64 + d }

  /** The code point at the front of bs, the shortest form only. */
  function DecodeChar(bs: bytes): (r: Parsed<char>)
    ensures r.Ok? ==> |r.rest| < |bs|
  {
    if |bs| >= 1 && bs[0] < 0x80 then
      Ok(bs[0] as char, bs[1..])
    else if |bs| >= 2 && 0xC0 <= bs[0] < 0xE0 && Continuation(bs[1]) then
      Accept(Join2(bs[0] - 0xC0, bs[1] - 0x80), 0x80, bs[2..])
    else if |bs| >= 3 && 0xE0 <= bs[0] < 0xF0 && Continuation(bs[1]) && Continuation(bs[2]) then
      Accept(Join3(bs[0] - 0xE0, bs[1] - 0x80, bs[2] - 0x80), 0x800, bs[3..])
    else if |bs| >= 4 && 0xF0 <= bs[0] < 0xF8 && Continuation(bs[1]) && Continuation(bs[2]) && Continuation(bs[3]) then
      Accept(Join4(bs[0] - 0xF0, bs[1] - 0x80, bs[2] - 0x80, bs[3] - 0x80), 0x1_0000, bs[4..])
    else Err
  }

  /** Overlong forms, surrogates and values past U+10FFFF are rejected. */
  function Accept(v: int, least: nat, rest: bytes): (r: Parsed<char>)
    ensures r.Ok? ==> r.rest == rest
  {
    if least <= v && Scalar(v) then Ok(v as char, rest) else Err
  }

  /** bs.decode("utf-8") */
  function Decode(bs: bytes): Option<string>
    decreases |bs|
  {
    if bs == [] then Some([])
    else
      match DecodeChar(bs)
      case Err => None
      case Ok(c, rest) =>
        match Decode(rest)
        case None => None
        case Some(s) => Some([c] + s)
  }

  lemma Split(v: int)
    requires 0 <= v < 0x11_0000
    ensures v == Join2(v / 64, v % 64)
    ensures v == Join3(v / 4096, v / 64 % 64, v % 64)
    ensures v == Join4(v / 0x4_0000, v / 4096 % 64, v / 64 % 64, v % 64)
  {
    assert v / 4096 == v / 64 / 64;
    assert v / 0x4_0000 == v / 4096 / 64;
  }

  lemma Groups(a: int, b: int, c: int, d: int)
    requires 0 <= a && 0 <= b < 64 && 0 <= c < 64 && 0 <= d < 64
    ensures var v := Join2(a, b); v / 64 == a && v % 64 == b
    ensures var v := Join3(a, b, c); v / 4096 == a && v / 64 % 64 == b && v % 64 == c
    ensures var v := Join4(a, b, c, d);
            v / 0x4_0000 == a && v / 4096 % 64 == b && v / 64 % 64 == c && v % 64 == d
  {
    assert Join3(a, b, c) / 64 == Join2(a, b);
    assert Join4(a, b, c, d) / 64 == Join3(a, b, c);
    assert Join4(a, b, c, d) / 4096 == Join2(a, b);
  }

  /** DecodeChar undoes EncodeChar, whatever follows. */
  lemma DecodeCharInverts(c: char, rest: bytes)
    ensures DecodeChar(EncodeChar(c) + rest) == Ok(c, rest)
  {
    Split(c as int);
    var e := EncodeChar(c);
    var bs := e + rest;
    assert bs[|e|..] == rest;
    assert bs[0] == e[0] && (|e| > 1 ==> bs[1] == e[1]) && (|e| > 2 ==> bs[2] == e[2]) && (|e| > 3 ==> bs[3] == e[3]);
  }

  lemma Encode2(c: char, a: byte, b: byte)
    requires 0xC0 <= a < 0xE0 && Continuation(b) && c as int == Join2(a - 0xC0, b - 0x80) >= 0x80
    ensures EncodeChar(c) == [a, b]
  {
    Groups(a - 0xC0, b - 0x80, 0, 0);
  }

  lemma Encode3(c: char, a: byte, b: byte, d: byte)
    requires 0xE0 <= a < 0xF0 && Continuation(b) && Continuation(d)
    requires c as int == Join3(a - 0xE0, b - 0x80, d - 0x80) >= 0x800
    ensures EncodeChar(c) == [a, b, d]
  {
    Groups(a - 0xE0, b - 0x80, d - 0x80, 0);
  }

  lemma Encode4(c: char, a: byte, b: byte, d: byte, e: byte)
    requires 0xF0 <= a && Continuation(b) && Continuation(d) && Continuation(e)
    requires c as int == Join4(a - 0xF0, b - 0x80, d - 0x80, e - 0x80) >= 0x1_0000
    ensures EncodeChar(c) == [a, b, d, e]
  {
    Groups(a - 0xF0, b - 0x80, d - 0x80, e - 0x80);
  }

  /** DecodeChar accepts only the encoding of the character it returns. */
  lemma DecodeCharSound(bs: bytes)
    requires DecodeChar(bs).Ok?
    ensures bs == EncodeChar(DecodeChar(bs).v) + DecodeChar(bs).rest
  {
    var c := DecodeChar(bs).v;
    if bs[0] < 0x80 {
    } else if bs[0] < 0xE0 {
      Encode2(c, bs[0], bs[1]);
    } else if bs[0] < 0xF0 {
      Encode3(c, bs[0], bs[1], bs[2]);
    } else {
      Encode4(c, bs[0], bs[1], bs[2], bs[3]);
    }
  }

  /** Decoding is the exact inverse of encoding: a byte string decodes to s if
      and only if it is the encoding of s. */
  lemma {:induction false} DecodeExact(bs: bytes, s: string)
    ensures Decode(bs) == Some(s) <==> Encode(s) == bs
    decreases |bs| + |s|
  {
    if bs == [] {
      if s != [] { assert Encode(s) != []; }
    } else {
      if Decode(bs) == Some(s) {
        var r := DecodeChar(bs);
        DecodeCharSound(bs);
        assert s[0] == r.v && Decode(r.rest) == Some(s[1..]);
        DecodeExact(r.rest, s[1..]);
      }
      if Encode(s) == bs {
        var tail := Encode(s[1..]);
        DecodeCharInverts(s[0], tail);
        DecodeExact(tail, s[1..]);
        assert s == [s[0]] + s[1..];
      }
    }
  }

  lemma RoundTrip(s: string)
    ensures Decode(Encode(s)) == Some(s)
  {
    DecodeExact(Encode(s), s);
  }

  /** A zero byte can only come from the character U+0000; write_string_z rests
      on this. */
  lemma {:induction false} ZeroByte(s: string)
    ensures 0 in Encode(s) <==> '\0' in s
  {
    if s != [] {
      ZeroByte(s[1..]);
      assert s == [s[0]] + s[1..];
      assert 0 in EncodeChar(s[0]) <==> s[0] == '\0';
      assert '\0' in s <==> s[0] == '\0' || '\0' in s[1..];
    }
  }
}
