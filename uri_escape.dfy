/**
 * `Uri.EscapeDataString` as section 2 of RFC 3986 describes it: every
 * character outside the unreserved set of section 2.3 is written as the
 * UTF-8 bytes of its code point, each percent-encoded with two upper-case
 * hexadecimal digits (section 2.1); unreserved characters stay as they are.
 */
module UriEscape {
  import opened Wrappers

  /** The unreserved characters of section 2.3 of RFC 3986. */
  predicate IsUnreserved(c: char)
  {
    || 'A' <= c <= 'Z' || 'a' <= c <= 'z' || '0' <= c <= '9'
    || c == '-' || c == '.' || c == '_' || c == '~'
  }

  predicate IsHexDigit(c: char)
  {
    '0' <= c <= '9' || 'A' <= c <= 'F'
  }

  /** The characters an escaped string may contain. */
  predicate IsEscapedChar(c: char)
  {
    IsUnreserved(c) || c == '%' || IsHexDigit(c)
  }

  function HexChar(d: int): (c: char)
    requires 0 <= d < 16
    ensures IsHexDigit(c)
  {
    if d < 10 then ('0' as int + d) as char else ('A' as int + d - 10) as char
  }

  function HexValue(c: char): (d: int)
    requires IsHexDigit(c)
    ensures 0 <= d < 16
  {
    if c <= '9' then c as int - '0' as int else c as int - 'A' as int + 10
  }

  predicate IsByte(b: int) { 0 <= b < 256 }

  /** The UTF-8 encoding of one Unicode scalar value. */
  function Utf8Bytes(c: char): (bytes: seq<int>)
    ensures 1 <= |bytes| <= 4
    ensures forall i :: 0 <= i < |bytes| ==> IsByte(bytes[i])
  {
    var cp := c as int;
    if cp < 0x80 then [cp]
    else if cp < 0x800 then [0xC0 + cp / 0x40, 0x80 + cp % 0x40]
    else if cp < 0x1_0000 then [0xE0 + cp / 0x1000, 0x80 + (cp / 0x40) % 0x40, 0x80 + cp % 0x40]
    else [0xF0 + cp / 0x4_0000, 0x80 + (cp / 0x1000) % 0x40, 0x80 + (cp / 0x40) % 0x40, 0x80 + cp % 0x40]
  }

  /** "%XX" for one byte. */
  function PercentEncode(b: int): (s: string)
    requires IsByte(b)
  {
    ['%', HexChar(b / 16), HexChar(b % 16)]
  }

  function PercentEncodeAll(bytes: seq<int>): (s: string)
    requires forall i :: 0 <= i < |bytes| ==> IsByte(bytes[i])
    ensures |s| == 3 * |bytes|
    ensures forall i :: 0 <= i < |s| ==> IsEscapedChar(s[i])
  {
    if bytes == [] then "" else PercentEncode(bytes[0]) + PercentEncodeAll(bytes[1..])
  }

  function EscapeChar(c: char): (s: string)
  {
    if IsUnreserved(c) then [c] else PercentEncodeAll(Utf8Bytes(c))
  }

  /** `Uri.EscapeDataString(s)`: the escapes of its characters, in order. */
  function Escape(s: string): string
  {
    Concat(seq(|s|, i requires 0 <= i < |s| => EscapeChar(s[i])))
  }

  function Concat(parts: seq<string>): string
  {
    if parts == [] then "" else parts[0] + Concat(parts[1..])
  }

  /** Escaping works character by character, from the front. */
  lemma EscapeCons(s: string)
    requires s != []
    ensures Escape(s) == EscapeChar(s[0]) + Escape(s[1..])
  {
    var parts := seq(|s|, i requires 0 <= i < |s| => EscapeChar(s[i]));
    assert parts[1..] == seq(|s| - 1, i requires 0 <= i < |s| - 1 => EscapeChar(s[1..][i]));
  }

  /**
   * The output of `Escape` uses only unreserved characters, '%' and
   * hexadecimal digits, so in particular never '&', '=' nor '?'.
   */
  lemma {:induction false} EscapeAlphabet(s: string)
    ensures forall i :: 0 <= i < |Escape(s)| ==> IsEscapedChar(Escape(s)[i])
    ensures '&' !in Escape(s) && '=' !in Escape(s) && '?' !in Escape(s)
  {
    if s != [] {
      EscapeAlphabet(s[1..]);
      EscapeCons(s);
      var head := EscapeChar(s[0]);
      assert forall i :: 0 <= i < |head| ==> IsEscapedChar(head[i]);
      assert Escape(s) == head + Escape(s[1..]);
    }
  }

  /** Unreserved text is left as it is. */
  lemma {:induction false} EscapeUnreserved(s: string)
    requires forall i :: 0 <= i < |s| ==> IsUnreserved(s[i])
    ensures Escape(s) == s
  {
    if s != [] {
      EscapeUnreserved(s[1..]);
      EscapeCons(s);
      assert [s[0]] + s[1..] == s;
    }
  }

  // ----- The inverse: percent-decoding followed by UTF-8 decoding -----

  /** Length of the UTF-8 sequence a lead byte starts; 0 when it cannot start one. */
  function Utf8Length(lead: int): int
  {
    if 0 <= lead < 0x80 then 1
    else if 0xC0 <= lead < 0xE0 then 2
    else if 0xE0 <= lead < 0xF0 then 3
    else if 0xF0 <= lead < 0xF8 then 4
    else 0
  }

  function Utf8Value(bytes: seq<int>): int
    requires 1 <= |bytes| <= 4
  {
    if |bytes| == 1 then bytes[0]
    else if |bytes| == 2 then (bytes[0] - 0xC0) * 0x40 + (bytes[1] - 0x80)
    else if |bytes| == 3 then (bytes[0] - 0xE0) * 0x1000 + (bytes[1] - 0x80) * 0x40 + (bytes[2] - 0x80)
    else (bytes[0] - 0xF0) * 0x4_0000 + (bytes[1] - 0x80) * 0x1000 + (bytes[2] - 0x80) * 0x40 + (bytes[3] - 0x80)
  }

  predicate IsScalarValue(cp: int)
  {
    (0 <= cp < 0xD800) || (0xE000 <= cp < 0x11_0000)
  }

  /** The `n` bytes written as "%XX" groups at the front of `t`, if it starts with them. */
  function PercentDecode(t: string, n: nat): Option<seq<int>>
    decreases n
  {
    if n == 0 then Some([])
    else if |t| >= 3 && t[0] == '%' && IsHexDigit(t[1]) && IsHexDigit(t[2]) then
      match PercentDecode(t[3..], n - 1)
      case Some(rest) => Some([16 * HexValue(t[1]) + HexValue(t[2])] + rest)
      case None => None
    else None
  }

  /** `Uri.UnescapeDataString` restricted to what `Escape` writes; `None` otherwise. */
  function Unescape(t: string): Option<string>
    decreases |t|
  {
    if t == [] then Some("")
    else if IsUnreserved(t[0]) then
      match Unescape(t[1..])
      case Some(rest) => Some([t[0]] + rest)
      case None => None
    else if |t| >= 3 && t[0] == '%' && IsHexDigit(t[1]) && IsHexDigit(t[2]) then
      var n := Utf8Length(16 * HexValue(t[1]) + HexValue(t[2]));
      if n == 0 || |t| < 3 * n then None
      else match PercentDecode(t, n)
        case None => None
        case Some(bytes) =>
          if |bytes| != n || !IsScalarValue(Utf8Value(bytes)) then None
          else match Unescape(t[3 * n..])
            case Some(rest) => Some([Utf8Value(bytes) as char] + rest)
            case None => None
    else None
  }

  lemma ByteHexRoundTrip(b: int)
    requires IsByte(b)
    ensures 16 * HexValue(HexChar(b / 16)) + HexValue(HexChar(b % 16)) == b
  {
  }

  lemma {:induction false} PercentDecodeEncoded(bytes: seq<int>, rest: string)
    requires forall i :: 0 <= i < |bytes| ==> IsByte(bytes[i])
    ensures PercentDecode(PercentEncodeAll(bytes) + rest, |bytes|) == Some(bytes)
  {
    if bytes != [] {
      var t := PercentEncodeAll(bytes) + rest;
      assert t[3..] == PercentEncodeAll(bytes[1..]) + rest;
      ByteHexRoundTrip(bytes[0]);
      PercentDecodeEncoded(bytes[1..], rest);
      assert [bytes[0]] + bytes[1..] == bytes;
    }
  }

  /** UTF-8 decoding undoes UTF-8 encoding, and the lead byte announces the length. */
  lemma Utf8RoundTrip(c: char)
    ensures Utf8Length(Utf8Bytes(c)[0]) == |Utf8Bytes(c)|
    ensures Utf8Value(Utf8Bytes(c)) == c as int
  {
    var cp := c as int;
    assert cp == (cp / 0x40) * 0x40 + cp % 0x40;
    assert cp / 0x40 == (cp / 0x1000) * 0x40 + (cp / 0x40) % 0x40;
    assert cp / 0x1000 == (cp / 0x4_0000) * 0x40 + (cp / 0x1000) % 0x40;
  }

  lemma {:induction false} UnescapeEscapeChar(c: char, rest: string)
    requires !IsUnreserved(c)
    ensures |EscapeChar(c)| >= 3
    ensures Unescape(EscapeChar(c) + rest) == match Unescape(rest)
      case Some(r) => Some([c] + r)
      case None => None
  {
    var bytes := Utf8Bytes(c);
    var t := EscapeChar(c) + rest;
    Utf8RoundTrip(c);
    PercentDecodeEncoded(bytes, rest);
    ByteHexRoundTrip(bytes[0]);
    assert t[..3] == PercentEncode(bytes[0]);
    assert t[3 * |bytes|..] == rest;
  }

  /** Round trip: unescaping an escaped string gives the string back. */
  lemma {:induction false} UnescapeEscape(s: string)
    ensures Unescape(Escape(s)) == Some(s)
  {
    if s != [] {
      UnescapeEscape(s[1..]);
      EscapeCons(s);
      if IsUnreserved(s[0]) {
        assert (Escape(s))[1..] == Escape(s[1..]);
      } else {
        UnescapeEscapeChar(s[0], Escape(s[1..]));
      }
      assert [s[0]] + s[1..] == s;
    }
  }

  /** Hence escaping is injective: distinct texts never escape alike. */
  lemma EscapeInjective(s: string, t: string)
    requires Escape(s) == Escape(t)
    ensures s == t
  {
    UnescapeEscape(s);
    UnescapeEscape(t);
  }
}
