/**
 * `encodeURIComponent` (ECMAScript): every code point outside its unescaped
 * set is written as the `%XX` escapes, in upper-case hexadecimal, of its
 * UTF-8 bytes; this is the percent-encoding of section 2.1 of RFC 3986.
 * A reference decoder (percent-decoding, then UTF-8 decoding) states what the
 * encoding means: decoding the encoding gives back the original string.
 */
module UriComponent {
  import opened Wrappers
  import NumberParse

  newtype byte = b: int | 0 <= b < 256

  /** The characters `encodeURIComponent` leaves as they are. */
  predicate Unescaped(c: char) {
    ('A' <= c <= 'Z') || ('a' <= c <= 'z') || ('0' <= c <= '9')
    || c == '-' || c == '_' || c == '.' || c == '!' || c == '~'
    || c == '*' || c == '\'' || c == '(' || c == ')'
  }

  /** The UTF-8 encoding of one code point. */
  function Utf8(c: char): (bs: seq<byte>)
    ensures 1 <= |bs| <= 4
  {
    var cp := c as int;
    if cp < 0x80 then [cp as byte]
    else if cp < 0x800 then [(0xC0 + cp / 64) as byte, (0x80 + cp % 64) as byte]
    else if cp < 0x10000 then
      [(0xE0 + cp / 4096) as byte, (0x80 + (cp / 64) % 64) as byte, (0x80 + cp % 64) as byte]
    else
      [(0xF0 + cp / 262144) as byte, (0x80 + (cp / 4096) % 64) as byte,
       (0x80 + (cp / 64) % 64) as byte, (0x80 + cp % 64) as byte]
  }

  /** The UTF-8 encoding of a string. */
  function Utf8Encode(s: string): seq<byte> {
    if s == [] then [] else Utf8(s[0]) + Utf8Encode(s[1..])
  }

  /** The escape `%XX` of one byte. */
  function Escape(b: byte): string {
    ['%', NumberParse.HexDigit(b as int / 16), NumberParse.HexDigit(b as int % 16)]
  }

  /** The escapes of a run of bytes. */
  function EscapeAll(bs: seq<byte>): string {
    if bs == [] then [] else Escape(bs[0]) + EscapeAll(bs[1..])
  }

  /** One code point as `encodeURIComponent` writes it. */
  function EncodeChar(c: char): string {
    if Unescaped(c) then [c] else EscapeAll(Utf8(c))
  }

  /**
   * `encodeURIComponent(s)`: never shorter than `s`, and a string made only of
   * unescaped characters comes out as it went in.
   */
  function EncodeURIComponent(s: string): (e: string)
    ensures |e| >= |s|
    ensures (forall i :: 0 <= i < |s| ==> Unescaped(s[i])) ==> e == s
  {
    if s == [] then []
    else
      assert forall i :: 1 <= i < |s| ==> s[1..][i - 1] == s[i];
      EncodeChar(s[0]) + EncodeURIComponent(s[1..])
  }

  /** `e` is a sequence of unescaped characters and `%XX` escapes with upper-case hexadecimal digits. */
  predicate WellEncoded(e: string) {
    if e == [] then true
    else if Unescaped(e[0]) then WellEncoded(e[1..])
    else
      e[0] == '%' && |e| >= 3
      && (('0' <= e[1] <= '9') || ('A' <= e[1] <= 'F'))
      && (('0' <= e[2] <= '9') || ('A' <= e[2] <= 'F'))
      && WellEncoded(e[3..])
  }

  // ---------------------------------------------------------------- decoding

  /** Percent-decoding to bytes: `%XX` is one byte, any other character its UTF-8 bytes. */
  function DecodeBytes(e: string): Option<seq<byte>> {
    if e == [] then Some([])
    else if e[0] == '%' then
      if |e| >= 3 && NumberParse.IsDigit(e[1], 16) && NumberParse.IsDigit(e[2], 16) then
        var b := (NumberParse.DigitValue(e[1]).value * 16 + NumberParse.DigitValue(e[2]).value) as byte;
        match DecodeBytes(e[3..])
        case None => None
        case Some(rest) => Some([b] + rest)
      else None
    else
      match DecodeBytes(e[1..])
      case None => None
      case Some(rest) => Some(Utf8(e[0]) + rest)
  }

  /** The length of the UTF-8 sequence a lead byte announces; 0 for a byte that cannot lead. */
  function LeadLength(b: byte): nat {
    if b < 0x80 then 1
    else if 0xC0 <= b < 0xE0 then 2
    else if 0xE0 <= b < 0xF0 then 3
    else if 0xF0 <= b < 0xF8 then 4
    else 0
  }

  predicate IsContinuation(b: byte) {
    0x80 <= b < 0xC0
  }

  /** The code point a complete UTF-8 sequence of 1 to 4 bytes spells. */
  function CodePoint(bs: seq<byte>): int
    requires 1 <= |bs| <= 4
  {
    if |bs| == 1 then bs[0] as int
    else if |bs| == 2 then (bs[0] as int - 0xC0) * 64 + (bs[1] as int - 0x80)
    else if |bs| == 3 then
      (bs[0] as int - 0xE0) * 4096 + (bs[1] as int - 0x80) * 64 + (bs[2] as int - 0x80)
    else
      (bs[0] as int - 0xF0) * 262144 + (bs[1] as int - 0x80) * 4096
      + (bs[2] as int - 0x80) * 64 + (bs[3] as int - 0x80)
  }

  /** `cp` is a Unicode scalar value written in the shortest form of `n` bytes. */
  predicate ShortestScalar(cp: int, n: nat) {
    if n == 1 then 0 <= cp < 0x80
    else if n == 2 then 0x80 <= cp < 0x800
    else if n == 3 then 0x800 <= cp < 0x10000 && !(0xD800 <= cp < 0xE000)
    else n == 4 && 0x10000 <= cp < 0x110000
  }

  /** Strict UTF-8 decoding. */
  function Utf8Decode(bs: seq<byte>): Option<string>
    decreases |bs|
  {
    if bs == [] then Some([])
    else
      var n := LeadLength(bs[0]);
      if n == 0 || |bs| < n || exists i :: 1 <= i < n && !IsContinuation(bs[i]) then None
      else
        var cp := CodePoint(bs[..n]);
        if !ShortestScalar(cp, n) then None
        else
          match Utf8Decode(bs[n..])
          case None => None
          case Some(rest) => Some([cp as char] + rest)
  }

  /** `decodeURIComponent` as a reference: percent-decoding, then UTF-8 decoding. */
  function DecodeURIComponent(e: string): Option<string> {
    match DecodeBytes(e)
    case None => None
    case Some(bs) => Utf8Decode(bs)
  }

  // ---------------------------------------------------------------- properties

  /** Decoding the escapes of some bytes yields those bytes. */
  lemma {:induction false} DecodeEscapes(bs: seq<byte>, rest: string)
    ensures DecodeBytes(EscapeAll(bs) + rest) ==
      match DecodeBytes(rest)
      case None => None
      case Some(r) => Some(bs + r)
  {
    if bs != [] {
      var b := bs[0];
      var e := EscapeAll(bs) + rest;
      assert e == Escape(b) + (EscapeAll(bs[1..]) + rest);
      assert e[0] == '%' && e[1] == NumberParse.HexDigit(b as int / 16) && e[2] == NumberParse.HexDigit(b as int % 16);
      assert e[3..] == EscapeAll(bs[1..]) + rest;
      DecodeEscapes(bs[1..], rest);
      assert (b as int / 16) * 16 + b as int % 16 == b as int;
      assert [b] + bs[1..] == bs;
      match DecodeBytes(rest)
      case None =>
      case Some(r) =>
        assert [b] + (bs[1..] + r) == bs + r;
    } else {
      assert EscapeAll(bs) + rest == rest;
      match DecodeBytes(rest)
      case None =>
      case Some(r) =>
        assert bs + r == r;
    }
  }

  /** Percent-decoding the encoding of a string yields its UTF-8 bytes. */
  lemma {:induction false} DecodeBytesOfEncoding(s: string)
    ensures DecodeBytes(EncodeURIComponent(s)) == Some(Utf8Encode(s))
  {
    if s != [] {
      var c := s[0];
      var tail := EncodeURIComponent(s[1..]);
      DecodeBytesOfEncoding(s[1..]);
      if Unescaped(c) {
        assert EncodeURIComponent(s) == [c] + tail;
        assert (c as int) < 0x80;
        assert ([c] + tail)[1..] == tail;
      } else {
        DecodeEscapes(Utf8(c), tail);
      }
    }
  }

  /** The encoding of one code point is a well-formed sequence: its lead byte announces its length, and it spells that code point in the shortest form. */
  lemma Utf8WellFormed(c: char)
    ensures var u := Utf8(c); var n := |u|;
      LeadLength(u[0]) == n && (forall i :: 1 <= i < n ==> IsContinuation(u[i]))
      && CodePoint(u) == c as int && ShortestScalar(c as int, n)
  {
    var u := Utf8(c);
    var cp := c as int;
    if |u| == 2 {
      assert CodePoint(u) == (cp / 64) * 64 + cp % 64;
    } else if |u| == 3 {
      assert cp / 64 == (cp / 4096) * 64 + (cp / 64) % 64;
      assert CodePoint(u) == (cp / 4096) * 4096 + ((cp / 64) % 64) * 64 + cp % 64;
    } else if |u| == 4 {
      assert cp / 4096 == (cp / 262144) * 64 + (cp / 4096) % 64;
      assert cp / 64 == (cp / 4096) * 64 + (cp / 64) % 64;
      assert CodePoint(u) ==
        (cp / 262144) * 262144 + ((cp / 4096) % 64) * 4096 + ((cp / 64) % 64) * 64 + cp % 64;
    }
  }

  /** UTF-8 decoding reads back the code point in front of any suffix. */
  lemma Utf8DecodeCons(c: char, rest: seq<byte>)
    ensures Utf8Decode(Utf8(c) + rest) ==
      match Utf8Decode(rest)
      case None => None
      case Some(r) => Some([c] + r)
  {
    var u := Utf8(c);
    var bs := u + rest;
    var n := |u|;
    Utf8WellFormed(c);
    assert bs[..n] == u;
    assert bs[n..] == rest;
    assert bs[0] == u[0];
    assert forall i :: 1 <= i < n ==> bs[i] == u[i];
  }

  /** UTF-8 decoding inverts UTF-8 encoding. */
  lemma {:induction false} Utf8RoundTrip(s: string)
    ensures Utf8Decode(Utf8Encode(s)) == Some(s)
  {
    if s != [] {
      Utf8RoundTrip(s[1..]);
      Utf8DecodeCons(s[0], Utf8Encode(s[1..]));
      assert [s[0]] + s[1..] == s;
    }
  }

  /** Round trip: decoding `encodeURIComponent(s)` gives back `s`. */
  lemma EncodeRoundTrip(s: string)
    ensures DecodeURIComponent(EncodeURIComponent(s)) == Some(s)
  {
    DecodeBytesOfEncoding(s);
    Utf8RoundTrip(s);
  }

  /** The escapes of some bytes, followed by a well-encoded suffix, are well encoded. */
  lemma {:induction false} EscapesWellEncoded(bs: seq<byte>, rest: string)
    requires WellEncoded(rest)
    ensures WellEncoded(EscapeAll(bs) + rest)
  {
    if bs != [] {
      EscapesWellEncoded(bs[1..], rest);
      assert EscapeAll(bs) + rest == Escape(bs[0]) + (EscapeAll(bs[1..]) + rest);
      EscapeWellEncoded(bs[0], EscapeAll(bs[1..]) + rest);
    } else {
      assert EscapeAll(bs) + rest == rest;
    }
  }

  /** One escape in front of a well-encoded suffix is well encoded. */
  lemma EscapeWellEncoded(b: byte, rest: string)
    requires WellEncoded(rest)
    ensures WellEncoded(Escape(b) + rest)
  {
    var e := Escape(b) + rest;
    assert e[0] == '%' && e[1] == NumberParse.HexDigit(b as int / 16) && e[2] == NumberParse.HexDigit(b as int % 16);
    assert e[3..] == rest;
  }


  /** `encodeURIComponent` produces only unescaped characters and `%XX` escapes. */
  lemma {:induction false} EncodingWellEncoded(s: string)
    ensures WellEncoded(EncodeURIComponent(s))
  {
    if s != [] {
      var tail := EncodeURIComponent(s[1..]);
      EncodingWellEncoded(s[1..]);
      if Unescaped(s[0]) {
        assert ([s[0]] + tail)[1..] == tail;
      } else {
        EscapesWellEncoded(Utf8(s[0]), tail);
      }
    }
  }

  /** A well-encoded string holds no character other than unescaped ones and `%`. */
  lemma {:induction false} WellEncodedChars(e: string)
    requires WellEncoded(e)
    ensures forall i :: 0 <= i < |e| ==> Unescaped(e[i]) || e[i] == '%'
  {
    if e != [] {
      if Unescaped(e[0]) {
        WellEncodedChars(e[1..]);
        assert forall i :: 1 <= i < |e| ==> e[i] == e[1..][i - 1];
      } else {
        WellEncodedChars(e[3..]);
        assert forall i :: 3 <= i < |e| ==> e[i] == e[3..][i - 3];
      }
    }
  }

  /** The encoding never holds a raw `&`, `=`, `?`, `#` or `/`, so it stays one query value. */
  lemma EncodingHasNoDelimiters(s: string)
    ensures forall c :: c in EncodeURIComponent(s) ==> c != '&' && c != '=' && c != '?' && c != '#' && c != '/'
  {
    EncodingWellEncoded(s);
    WellEncodedChars(EncodeURIComponent(s));
  }
}
