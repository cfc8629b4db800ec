/**
 * `encodeURIComponent` and `decodeURIComponent`: percent-encoding in the
 * sense of section 2.1 of RFC 3986. Every character outside the letters,
 * the digits and `- _ . ! ~ * ' ( )` is written as the `%XX` escapes of its
 * UTF-8 bytes, with upper-case hexadecimal digits. Decoding reads every
 * escape back and fails, as `URIError` does, on a malformed escape or
 * byte sequence.
 */
module Percent {
  import opened Wrappers

  type Byte = b: int | 0 <= b < 256

  const UriError := "URI malformed"

  /** The characters `encodeURIComponent` leaves as they are. */
  predicate Unescaped(ch: char)
  {
    ('A' <= ch <= 'Z') || ('a' <= ch <= 'z') || ('0' <= ch <= '9')
    || ch == '-' || ch == '_' || ch == '.' || ch == '!' || ch == '~' || ch == '*'
    || ch == '\'' || ch == '(' || ch == ')'
  }

  predicate IsHexDigit(ch: char)
  {
    ('0' <= ch <= '9') || ('A' <= ch <= 'F') || ('a' <= ch <= 'f')
  }

  function HexChar(d: int): (ch: char)
    requires 0 <= d < 16
    ensures IsHexDigit(ch)
  {
    "0123456789ABCDEF"[d]
  }

  function HexValue(ch: char): (d: int)
    requires IsHexDigit(ch)
    ensures 0 <= d < 16
  {
    if '0' <= ch <= '9' then ch as int - '0' as int
    else if 'A' <= ch <= 'F' then ch as int - 'A' as int + 10
    else ch as int - 'a' as int + 10
  }

  lemma HexRoundTrip(d: int)
    requires 0 <= d < 16
    ensures HexValue(HexChar(d)) == d
  {
  }

  // UTF-8.

  /** The UTF-8 bytes of a code point. */
  function Utf8(cp: int): (bs: seq<Byte>)
    requires 0 <= cp < 0x110000
    ensures 1 <= |bs| <= 4
  {
    if cp < 0x80 then [cp]
    else if cp < 0x800 then [0xC0 + cp / 64, 0x80 + cp % 64]
    else if cp < 0x10000 then [0xE0 + cp / 4096, 0x80 + (cp / 64) % 64, 0x80 + cp % 64]
    else [0xF0 + cp / 262144, 0x80 + (cp / 4096) % 64, 0x80 + (cp / 64) % 64, 0x80 + cp % 64]
  }

  /** The number of bytes a sequence starting with `b` has; 0 for a byte that cannot start one. */
  function SequenceLength(b: Byte): nat
  {
    if b < 0x80 then 1
    else if b < 0xC0 then 0
    else if b < 0xE0 then 2
    else if b < 0xF0 then 3
    else if b < 0xF8 then 4
    else 0
  }

  predicate IsContinuation(b: Byte)
  {
    0x80 <= b < 0xC0
  }

  predicate IsScalar(cp: int)
  {
    0 <= cp < 0xD800 || 0xE000 <= cp < 0x110000
  }

  /**
   * The code point of a well-formed sequence: the lead byte's payload and
   * six bits per continuation byte; `None` for an overlong form, a
   * surrogate or a value past U+10FFFF.
   */
  function CodePoint(bs: seq<Byte>): (r: Option<int>)
    requires 1 <= |bs| <= 4 && SequenceLength(bs[0]) == |bs|
    requires forall i :: 1 <= i < |bs| ==> IsContinuation(bs[i])
    ensures r.Some? ==> IsScalar(r.value)
  {
    if |bs| == 1 then Some(bs[0])
    else if |bs| == 2 then
      var cp: int := (bs[0] as int - 0xC0) * 64 + (bs[1] as int - 0x80);
      if cp < 0x80 then None else Some(cp)
    else if |bs| == 3 then
      var cp: int := (bs[0] as int - 0xE0) * 4096 + (bs[1] as int - 0x80) * 64 + (bs[2] as int - 0x80);
      if cp < 0x800 || (0xD800 <= cp < 0xE000) then None else Some(cp)
    else
      var cp: int := (bs[0] as int - 0xF0) * 262144 + (bs[1] as int - 0x80) * 4096 + (bs[2] as int - 0x80) * 64 + (bs[3] as int - 0x80);
      if cp < 0x10000 || cp >= 0x110000 then None else Some(cp)
  }

  lemma Utf8Shape(cp: int)
    requires IsScalar(cp)
    ensures var bs := Utf8(cp);
      SequenceLength(bs[0]) == |bs|
      && (forall i :: 1 <= i < |bs| ==> IsContinuation(bs[i]))
      && CodePoint(bs) == Some(cp)
  {
    if cp < 0x80 {
    } else if cp < 0x800 {
      Utf8Two(cp);
    } else if cp < 0x10000 {
      Utf8Three(cp);
    } else {
      Utf8Four(cp);
    }
  }

  /** Splitting off the low six bits. */
  lemma SixBits(x: int)
    requires x >= 0
    ensures x == (x / 64) * 64 + x % 64 && 0 <= x % 64 < 64
  {
  }

  lemma Utf8Two(cp: int)
    requires 0x80 <= cp < 0x800
    ensures var bs := Utf8(cp);
      |bs| == 2 && SequenceLength(bs[0]) == 2 && IsContinuation(bs[1]) && CodePoint(bs) == Some(cp)
  {
    SixBits(cp);
    assert Utf8(cp) == [0xC0 + cp / 64, 0x80 + cp % 64];
  }

  lemma Utf8Three(cp: int)
    requires 0x800 <= cp < 0x10000 && !(0xD800 <= cp < 0xE000)
    ensures var bs := Utf8(cp);
      |bs| == 3 && SequenceLength(bs[0]) == 3 && IsContinuation(bs[1]) && IsContinuation(bs[2])
      && CodePoint(bs) == Some(cp)
  {
    var q := cp / 64;
    SixBits(cp);
    SixBits(q);
    assert q / 64 == cp / 4096;
    var a, b, c := q / 64, q % 64, cp % 64;
    assert cp == a * 4096 + b * 64 + c;
    assert Utf8(cp) == [0xE0 + a, 0x80 + b, 0x80 + c];
  }

  lemma Utf8Four(cp: int)
    requires 0x10000 <= cp < 0x110000
    ensures var bs := Utf8(cp);
      |bs| == 4 && SequenceLength(bs[0]) == 4
      && IsContinuation(bs[1]) && IsContinuation(bs[2]) && IsContinuation(bs[3])
      && CodePoint(bs) == Some(cp)
  {
    var q := cp / 64;
    var r := q / 64;
    SixBits(cp);
    SixBits(q);
    SixBits(r);
    assert r == cp / 4096;
    assert r / 64 == cp / 262144;
    var a, b, c, d := r / 64, r % 64, q % 64, cp % 64;
    assert cp == a * 262144 + b * 4096 + c * 64 + d;
    assert Utf8(cp) == [0xF0 + a, 0x80 + b, 0x80 + c, 0x80 + d];
  }

  // Encoding.

  function Escape(b: Byte): string
  {
    ['%', HexChar(b / 16), HexChar(b % 16)]
  }

  function EscapeAll(bs: seq<Byte>): (s: string)
    ensures |s| == 3 * |bs|
  {
    if |bs| == 0 then "" else Escape(bs[0]) + EscapeAll(bs[1..])
  }

  function EncodeChar(ch: char): string
  {
    if Unescaped(ch) then [ch] else EscapeAll(Utf8(ch as int))
  }

  /** `encodeURIComponent`. */
  function Encode(s: string): string
  {
    if |s| == 0 then "" else EncodeChar(s[0]) + Encode(s[1..])
  }

  // Decoding.

  /** The byte of the escape `%XX` at the start of `s`. */
  function EscapedByte(s: string): (r: Option<Byte>)
  {
    if |s| >= 3 && s[0] == '%' && IsHexDigit(s[1]) && IsHexDigit(s[2])
    then Some(HexValue(s[1]) * 16 + HexValue(s[2]))
    else None
  }

  /** The continuation bytes of `n` escapes at the start of `s`. */
  function Continuations(s: string, n: nat): (r: Option<seq<Byte>>)
    ensures r.Some? ==> (|r.value| == n && 3 * n <= |s|
                         && forall i :: 0 <= i < n ==> IsContinuation(r.value[i]))
  {
    if n == 0 then Some([])
    else
      match EscapedByte(s)
      case None => None
      case Some(b) =>
        if !IsContinuation(b) then None
        else
          match Continuations(s[3..], n - 1)
          case None => None
          case Some(more) => Some([b] + more)
  }

  /** The character the escapes at the start of `s` stand for, and how many characters they take. */
  function DecodeEscape(s: string): (r: Option<(char, nat)>)
    ensures r.Some? ==> 3 <= r.value.1 <= |s|
  {
    match EscapedByte(s)
    case None => None
    case Some(b) =>
      var n := SequenceLength(b);
      if n == 0 then None
      else
        match Continuations(s[3..], n - 1)
        case None => None
        case Some(more) =>
          match CodePoint([b] + more)
          case None => None
          case Some(cp) => Some((cp as char, 3 * n))
  }

  /** `decodeURIComponent`. */
  function Decode(s: string): Result<string>
    decreases |s|
  {
    if |s| == 0 then Ok("")
    else if s[0] != '%' then
      match Decode(s[1..])
      case Err(m) => Err(m)
      case Ok(rest) => Ok([s[0]] + rest)
    else
      match DecodeEscape(s)
      case None => Err(UriError)
      case Some((ch, n)) =>
        match Decode(s[n..])
        case Err(m) => Err(m)
        case Ok(rest) => Ok([ch] + rest)
  }

  /** Text without `%` decodes to itself. */
  lemma {:induction false} DecodePlain(s: string)
    requires '%' !in s
    ensures Decode(s) == Ok(s)
    decreases |s|
  {
    if |s| > 0 {
      assert '%' !in s[1..];
      DecodePlain(s[1..]);
      assert [s[0]] + s[1..] == s;
    }
  }

  // Properties.

  lemma EscapeRead(b: Byte, rest: string)
    ensures EscapedByte(Escape(b) + rest) == Some(b)
  {
    var s := Escape(b) + rest;
    assert s[1] == HexChar(b / 16) && s[2] == HexChar(b % 16);
    HexRoundTrip(b / 16);
    HexRoundTrip(b % 16);
  }

  lemma {:induction false} ContinuationsRead(bs: seq<Byte>, rest: string)
    requires forall i :: 0 <= i < |bs| ==> IsContinuation(bs[i])
    ensures Continuations(EscapeAll(bs) + rest, |bs|) == Some(bs)
  {
    if |bs| > 0 {
      EscapeAllCons(bs, rest);
      EscapeThen(bs[0], EscapeAll(bs[1..]) + rest);
      ContinuationsRead(bs[1..], rest);
      assert [bs[0]] + bs[1..] == bs;
    }
  }

  /** The escapes of a character's UTF-8 bytes decode to that character. */
  lemma EscapesRead(ch: char, rest: string)
    ensures DecodeEscape(EscapeAll(Utf8(ch as int)) + rest) == Some((ch, 3 * |Utf8(ch as int)|))
  {
    var cp := ch as int;
    Utf8Shape(cp);
    SequenceRead(Utf8(cp), cp, rest);
  }

  /** The escapes of a well-formed byte sequence decode to its code point. */
  lemma SequenceRead(bs: seq<Byte>, cp: int, rest: string)
    requires 1 <= |bs| <= 4 && SequenceLength(bs[0]) == |bs|
    requires forall i :: 1 <= i < |bs| ==> IsContinuation(bs[i])
    requires CodePoint(bs) == Some(cp)
    ensures IsScalar(cp) && DecodeEscape(EscapeAll(bs) + rest) == Some((cp as char, 3 * |bs|))
  {
    EscapesSplit(bs, rest);
    DecodeEscapeOf(EscapeAll(bs) + rest, bs, cp);
  }

  /** The escapes of a lead byte and its continuations read back as those bytes. */
  lemma EscapesSplit(bs: seq<Byte>, rest: string)
    requires 1 <= |bs|
    requires forall i :: 1 <= i < |bs| ==> IsContinuation(bs[i])
    ensures var s := EscapeAll(bs) + rest;
      |s| >= 3 && EscapedByte(s) == Some(bs[0]) && Continuations(s[3..], |bs| - 1) == Some(bs[1..])
  {
    var more := bs[1..];
    var t := EscapeAll(more) + rest;
    EscapeAllCons(bs, rest);
    EscapeThen(bs[0], t);
    ContinuationsRead(more, rest);
  }

  lemma EscapeAllCons(bs: seq<Byte>, rest: string)
    requires |bs| > 0
    ensures EscapeAll(bs) + rest == Escape(bs[0]) + (EscapeAll(bs[1..]) + rest)
  {
  }

  /** An escape followed by `t` reads as its byte, with `t` after it. */
  lemma EscapeThen(b: Byte, t: string)
    ensures var s := Escape(b) + t; |s| >= 3 && EscapedByte(s) == Some(b) && s[3..] == t
  {
    EscapeRead(b, t);
    var s := Escape(b) + t;
    assert s[3..] == t;
  }

  /** How `DecodeEscape` reads a lead escape, its continuations and their code point. */
  lemma DecodeEscapeOf(s: string, bs: seq<Byte>, cp: int)
    requires 1 <= |bs| <= 4 && SequenceLength(bs[0]) == |bs|
    requires forall i :: 1 <= i < |bs| ==> IsContinuation(bs[i])
    requires |s| >= 3 && EscapedByte(s) == Some(bs[0]) && Continuations(s[3..], |bs| - 1) == Some(bs[1..])
    requires CodePoint(bs) == Some(cp)
    ensures IsScalar(cp) && DecodeEscape(s) == Some((cp as char, 3 * |bs|))
  {
    assert [bs[0]] + bs[1..] == bs;
  }

  lemma EncodeCharRead(ch: char, rest: string)
    ensures Decode(EncodeChar(ch) + rest) == match Decode(rest) case Err(m) => Err(m) case Ok(r) => Ok([ch] + r)
  {
    var s := EncodeChar(ch) + rest;
    if Unescaped(ch) {
      assert s[0] == ch && s[1..] == rest;
    } else {
      var e := EscapeAll(Utf8(ch as int));
      EscapesRead(ch, rest);
      assert s[0] == '%';
      assert s[|e|..] == rest;
    }
  }

  /** `decodeURIComponent(encodeURIComponent(s)) == s`. */
  lemma {:induction false} DecodeEncode(s: string)
    ensures Decode(Encode(s)) == Ok(s)
  {
    if |s| > 0 {
      var t := Encode(s[1..]);
      DecodeEncode(s[1..]);
      assert Encode(s) == EncodeChar(s[0]) + t;
      EncodeCharRead(s[0], t);
      assert [s[0]] + s[1..] == s;
    }
  }

  /** What an encoding is made of: unescaped characters, `%` and hexadecimal digits. */
  predicate EncodedChar(ch: char)
  {
    Unescaped(ch) || ch == '%' || IsHexDigit(ch)
  }

  lemma {:induction false} EscapeAllChars(bs: seq<Byte>)
    ensures forall i :: 0 <= i < |EscapeAll(bs)| ==> EncodedChar(EscapeAll(bs)[i])
  {
    if |bs| > 0 {
      EscapeAllChars(bs[1..]);
      var s := EscapeAll(bs);
      assert s == Escape(bs[0]) + EscapeAll(bs[1..]);
      forall i | 3 <= i < |s|
        ensures EncodedChar(s[i])
      {
        assert s[i] == EscapeAll(bs[1..])[i - 3];
      }
    }
  }

  lemma {:induction false} EncodeChars(s: string)
    ensures forall i :: 0 <= i < |Encode(s)| ==> EncodedChar(Encode(s)[i])
  {
    if |s| > 0 {
      EncodeChars(s[1..]);
      var e := EncodeChar(s[0]);
      if !Unescaped(s[0]) {
        EscapeAllChars(Utf8(s[0] as int));
      }
      var r := Encode(s);
      assert r == e + Encode(s[1..]);
      forall i | 0 <= i < |r|
        ensures EncodedChar(r[i])
      {
        if i >= |e| {
          assert r[i] == Encode(s[1..])[i - |e|];
        }
      }
    }
  }

  /**
   * An encoding holds none of the separators the composite keys are split
   * on: no `:`, `/`, `;` or `|`.
   */
  lemma EncodeLacksSeparators(s: string)
    ensures forall i :: 0 <= i < |Encode(s)| ==>
      Encode(s)[i] != ':' && Encode(s)[i] != '/' && Encode(s)[i] != ';' && Encode(s)[i] != '|'
  {
    EncodeChars(s);
  }

  /** Characters left as they are, and only those, come through the encoding as themselves. */
  lemma {:induction false} EncodeUnescaped(s: string)
    requires forall i :: 0 <= i < |s| ==> Unescaped(s[i])
    ensures Encode(s) == s
  {
    if |s| > 0 {
      EncodeUnescaped(s[1..]);
    }
  }

  /** A `%` not followed by two hexadecimal digits is a malformed URI. */
  lemma MalformedEscape(s: string)
    requires |s| > 0 && s[0] == '%'
    requires |s| < 3 || !IsHexDigit(s[1]) || !IsHexDigit(s[2])
    ensures Decode(s) == Err(UriError)
  {
  }

  /** A lone continuation byte cannot start a character. */
  lemma MalformedLead(s: string)
    requires EscapedByte(s).Some? && IsContinuation(EscapedByte(s).value)
    ensures Decode(s) == Err(UriError)
  {
  }

  /** Every character encodes to at least one character. */
  lemma {:induction false} EncodeLength(s: string)
    ensures |Encode(s)| >= |s|
  {
    if |s| > 0 {
      EncodeLength(s[1..]);
      assert |EncodeChar(s[0])| >= 1;
    }
  }
}
