/**
 * Percent-encoding of keys as done by Uri.EscapeDataString / Uri.UnescapeDataString
 * (RFC 3986): every character outside the unreserved set is written as the
 * UTF-8 bytes of its code point, each as '%' and two upper-case hex digits.
 */
module Escaping {
  import opened Wrappers

  type byte = b: int | 0 <= b < 256

  /** The unreserved characters of section 2.3 of RFC 3986, left as they are. */
  predicate IsUnreserved(c: char) {
    ('A' <= c <= 'Z') || ('a' <= c <= 'z') || ('0' <= c <= '9') || c == '-' || c == '_' || c == '.' || c == '~'
  }

  predicate IsScalar(n: int) {
    0 <= n < 0xD800 || 0xE000 <= n < 0x11_0000
  }

  // ---------------------------------------------------------------- UTF-8

  /** The UTF-8 encoding of one code point (section 3 of RFC 3629). */
  function Utf8(c: char): (bs: seq<byte>)
    ensures 1 <= |bs| <= 4
    ensures |bs| == 1 <==> c as int < 0x80
  {
    var n := c as int;
    if n < 0x80 then [n]
    else if n < 0x800 then [0xC0 + n / 64, 0x80 + n % 64]
    else if n < 0x1_0000 then [0xE0 + n / 4096, 0x80 + (n / 64) % 64, 0x80 + n % 64]
    else [0xF0 + n / 0x4_0000, 0x80 + (n / 4096) % 64, 0x80 + (n / 64) % 64, 0x80 + n % 64]
  }

  /** The length of the sequence a lead byte announces; 0 for a byte that cannot lead. */
  function Utf8Length(lead: byte): nat {
    if lead < 0x80 then 1
    else if 0xC0 <= lead < 0xE0 then 2
    else if 0xE0 <= lead < 0xF0 then 3
    else if 0xF0 <= lead < 0xF8 then 4
    else 0
  }

  /** The code point a sequence of one to four bytes spells, read by its lead byte's pattern. */
  function CodePoint(bs: seq<byte>): int
    requires 1 <= |bs| <= 4
  {
    if |bs| == 1 then bs[0]
    else if |bs| == 2 then (bs[0] as int - 0xC0) * 64 + (bs[1] as int - 0x80)
    else if |bs| == 3 then (bs[0] as int - 0xE0) * 4096 + (bs[1] as int - 0x80) * 64 + (bs[2] as int - 0x80)
    else (bs[0] as int - 0xF0) * 0x4_0000 + (bs[1] as int - 0x80) * 4096 + (bs[2] as int - 0x80) * 64 + (bs[3] as int - 0x80)
  }

  /**
   * Strict UTF-8 decoding of one sequence: accepted only when the bytes are the
   * encoding of a code point (so overlong forms, surrogates and stray
   * continuation bytes are refused).
   */
  function Utf8Decode(bs: seq<byte>): (r: Option<char>)
    ensures r.Some? ==> Utf8(r.value) == bs
  {
    if 1 <= |bs| <= 4 && IsScalar(CodePoint(bs)) && Utf8(CodePoint(bs) as char) == bs
    then Some(CodePoint(bs) as char)
    else None
  }

  lemma Utf8LeadAnnouncesLength(c: char)
    ensures Utf8Length(Utf8(c)[0]) == |Utf8(c)|
  {}

  /** Three base-64 digits and a remainder put back together give the number. */
  lemma Base64Digits(n: nat)
    ensures (n / 4096) * 4096 + ((n / 64) % 64) * 64 + n % 64 == n
  {
    assert n / 64 == (n / 4096) * 64 + (n / 64) % 64;
  }

  lemma CodePointOfUtf8(c: char)
    ensures CodePoint(Utf8(c)) == c as int
  {
    var n := c as int;
    Base64Digits(n);
    if n >= 0x1_0000 {
      assert n / 4096 == (n / 0x4_0000) * 64 + (n / 4096) % 64;
    }
  }

  lemma Utf8RoundTrip(c: char)
    ensures Utf8Decode(Utf8(c)) == Some(c)
  {
    CodePointOfUtf8(c);
  }

  // ---------------------------------------------------------------- hex

  function HexDigit(d: int): (c: char)
    requires 0 <= d < 16
    ensures IsUnreserved(c)
  {
    if d < 10 then ('0' as int + d) as char else ('A' as int + d - 10) as char
  }

  /** The value of a hex digit of either case. */
  function HexValue(c: char): (r: Option<int>)
    ensures r.Some? ==> 0 <= r.value < 16
  {
    if '0' <= c <= '9' then Some(c as int - '0' as int)
    else if 'A' <= c <= 'F' then Some(c as int - 'A' as int + 10)
    else if 'a' <= c <= 'f' then Some(c as int - 'a' as int + 10)
    else None
  }

  lemma HexRoundTrip(d: int)
    requires 0 <= d < 16
    ensures HexValue(HexDigit(d)) == Some(d)
  {}

  // ---------------------------------------------------------------- escape

  /** '%HH' for every byte. */
  function Percent(bs: seq<byte>): (s: string)
    ensures |s| == 3 * |bs|
    ensures forall i :: 0 <= i < |s| ==> IsUnreserved(s[i]) || s[i] == '%'
  {
    if bs == [] then []
    else ['%', HexDigit(bs[0] / 16), HexDigit(bs[0] % 16)] + Percent(bs[1..])
  }

  function EscapeChar(c: char): (s: string)
    ensures forall i :: 0 <= i < |s| ==> IsUnreserved(s[i]) || s[i] == '%'
  {
    if IsUnreserved(c) then [c] else Percent(Utf8(c))
  }

  /** Uri.EscapeDataString. */
  function Escape(s: string): (r: string)
    ensures forall i :: 0 <= i < |r| ==> IsUnreserved(r[i]) || r[i] == '%'
  {
    if s == [] then [] else EscapeChar(s[0]) + Escape(s[1..])
  }

  // ---------------------------------------------------------------- unescape

  /** The byte a '%HH' at the start of s stands for. */
  function EscapedByte(s: string): (r: Option<byte>)
    ensures r.Some? ==> |s| >= 3
  {
    if |s| >= 3 && s[0] == '%' && HexValue(s[1]).Some? && HexValue(s[2]).Some?
    then Some(HexValue(s[1]).value * 16 + HexValue(s[2]).value)
    else None
  }

  /** The bytes n consecutive '%HH' escapes at the start of s stand for. */
  function EscapedBytes(s: string, n: nat): (r: Option<seq<byte>>)
    ensures r.Some? ==> |s| >= 3 * n && |r.value| == n
  {
    if n == 0 then Some([])
    else match EscapedByte(s)
      case None => None
      case Some(b) =>
        match EscapedBytes(s[3..], n - 1)
        case None => None
        case Some(rest) => Some([b] + rest)
  }

  /**
   * Uri.UnescapeDataString: every run of escapes that spells one UTF-8
   * sequence becomes its character; an escape that does not start such a run
   * stays as the three characters it is; all else is copied.
   */
  function Unescape(s: string): string
    decreases |s|
  {
    if s == [] then []
    else match EscapedByte(s)
      case None => [s[0]] + Unescape(s[1..])
      case Some(b) =>
        var n := Utf8Length(b);
        if n == 0 then s[..3] + Unescape(s[3..])
        else match EscapedBytes(s, n)
          case None => s[..3] + Unescape(s[3..])
          case Some(bs) =>
            match Utf8Decode(bs)
            case None => s[..3] + Unescape(s[3..])
            case Some(c) => [c] + Unescape(s[3 * n..])
  }

  // ---------------------------------------------------------------- round trip

  lemma {:induction false} EscapedBytesOfPercent(bs: seq<byte>, rest: string)
    ensures EscapedBytes(Percent(bs) + rest, |bs|) == Some(bs)
    decreases |bs|
  {
    if bs != [] {
      var s := Percent(bs) + rest;
      HexRoundTrip(bs[0] / 16);
      HexRoundTrip(bs[0] % 16);
      assert Percent(bs) == ['%', HexDigit(bs[0] / 16), HexDigit(bs[0] % 16)] + Percent(bs[1..]);
      assert EscapedByte(s) == Some(bs[0]);
      assert s[3..] == Percent(bs[1..]) + rest;
      EscapedBytesOfPercent(bs[1..], rest);
      assert bs == [bs[0]] + bs[1..];
    }
  }

  lemma UnescapeEscapeChar(c: char, rest: string)
    ensures Unescape(EscapeChar(c) + rest) == [c] + Unescape(rest)
  {
    var s := EscapeChar(c) + rest;
    if IsUnreserved(c) {
      assert s[1..] == rest;
    } else {
      var bs := Utf8(c);
      EscapedBytesOfPercent(bs, rest);
      HexRoundTrip(bs[0] / 16);
      HexRoundTrip(bs[0] % 16);
      assert EscapedByte(s) == Some(bs[0]);
      Utf8LeadAnnouncesLength(c);
      Utf8RoundTrip(c);
      assert s[3 * |bs|..] == rest;
    }
  }

  /** Unescaping undoes escaping, for every string. */
  lemma {:induction false} UnescapeEscape(s: string)
    ensures Unescape(Escape(s)) == s
  {
    if s != [] {
      UnescapeEscapeChar(s[0], Escape(s[1..]));
      UnescapeEscape(s[1..]);
    }
  }

  /** Escaped text never holds a character outside the unreserved set and '%'. */
  lemma EscapeAvoids(s: string, c: char)
    requires !IsUnreserved(c) && c != '%'
    ensures c !in Escape(s)
  {}
}
