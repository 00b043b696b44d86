/** JavaScript's `encodeURIComponent`, which the dashboard applies to the topic when
    it builds the fallback image URL. Dafny characters are Unicode scalar values, so
    the lone-surrogate case (where `encodeURIComponent` throws) cannot arise. */
module Uri {

  import opened Wrappers

  type Byte = b: int | 0 <= b < 256

  /** The characters `encodeURIComponent` leaves as they are. */
  predicate IsUnreserved(c: char)
  {
    ('A' <= c <= 'Z') || ('a' <= c <= 'z') || ('0' <= c <= '9')
    || c == '-' || c == '_' || c == '.' || c == '!' || c == '~' || c == '*'
    || c == '\'' || c == '(' || c == ')'
  }

  /** The UTF-8 encoding of one scalar value. */
  function Utf8(c: char): (r: seq<Byte>)
    ensures 1 <= |r| <= 4
  {
    var n := c as int;
    if n < 0x80 then [n]
    else if n < 0x800 then [0xC0 + n / 0x40, 0x80 + n % 0x40]
    else if n < 0x10000 then [0xE0 + n / 0x1000, 0x80 + (n / 0x40) % 0x40, 0x80 + n % 0x40]
    else [0xF0 + n / 0x40000, 0x80 + (n / 0x1000) % 0x40, 0x80 + (n / 0x40) % 0x40, 0x80 + n % 0x40]
  }

  /** The UTF-8 encoding of a string. */
  function Utf8String(s: string): seq<Byte>
  {
    if s == "" then [] else Utf8(s[0]) + Utf8String(s[1..])
  }

  function HexDigit(d: nat): (c: char)
    requires d < 16
    ensures IsUnreserved(c) && IsHexDigit(c) && HexValue(c) == d
  {
    if d < 10 then ('0' as int + d) as char else ('A' as int + d - 10) as char
  }

  predicate IsHexDigit(c: char)
  {
    ('0' <= c <= '9') || ('A' <= c <= 'F') || ('a' <= c <= 'f')
  }

  function HexValue(c: char): (d: nat)
    requires IsHexDigit(c)
    ensures d < 16
  {
    if '0' <= c <= '9' then c as int - '0' as int
    else if 'A' <= c <= 'F' then c as int - 'A' as int + 10
    else c as int - 'a' as int + 10
  }

  /** `%XX` escapes, upper-case hexadecimal, one per byte. */
  function PercentEscape(bs: seq<Byte>): (r: string)
    ensures |r| == 3 * |bs|
    ensures forall i :: 0 <= i < |r| ==> IsUnreserved(r[i]) || r[i] == '%'
  {
    if bs == [] then ""
    else ['%', HexDigit(bs[0] / 16), HexDigit(bs[0] % 16)] + PercentEscape(bs[1..])
  }

  function EncodeChar(c: char): string
  {
    if IsUnreserved(c) then [c] else PercentEscape(Utf8(c))
  }

  /** `encodeURIComponent(s)`. */
  function EncodeUriComponent(s: string): (r: string)
    ensures forall i :: 0 <= i < |r| ==> IsUnreserved(r[i]) || r[i] == '%'
    ensures (forall i :: 0 <= i < |s| ==> IsUnreserved(s[i])) ==> r == s
  {
    if s == "" then "" else EncodeChar(s[0]) + EncodeUriComponent(s[1..])
  }

  /** Percent-decoding to bytes: each `%XX` is one byte, each other ASCII character
      its own code; anything else is malformed. */
  function DecodeToBytes(s: string): Option<seq<Byte>>
    decreases |s|
  {
    if s == "" then Some([])
    else if s[0] == '%' then
      if |s| >= 3 && IsHexDigit(s[1]) && IsHexDigit(s[2]) then
        match DecodeToBytes(s[3..])
        case None => None
        case Some(rest) => Some([HexValue(s[1]) * 16 + HexValue(s[2])] + rest)
      else None
    else if (s[0] as int) < 0x80 then
      match DecodeToBytes(s[1..])
      case None => None
      case Some(rest) => Some([s[0] as int] + rest)
    else None
  }

  /** One escape decodes to its byte, in front of whatever the rest decodes to. */
  lemma DecodeOneEscape(b: Byte, u: string, rest: seq<Byte>)
    requires DecodeToBytes(u) == Some(rest)
    ensures DecodeToBytes(['%', HexDigit(b / 16), HexDigit(b % 16)] + u) == Some([b] + rest)
  {
    var s := ['%', HexDigit(b / 16), HexDigit(b % 16)] + u;
    assert s[3..] == u;
    assert HexValue(s[1]) * 16 + HexValue(s[2]) == b;
  }

  lemma PercentEscapeCons(bs: seq<Byte>, t: string)
    requires bs != []
    ensures PercentEscape(bs) + t
            == ['%', HexDigit(bs[0] / 16), HexDigit(bs[0] % 16)] + (PercentEscape(bs[1..]) + t)
  {
  }

  lemma {:induction false} DecodePercentEscape(bs: seq<Byte>, t: string, rest: seq<Byte>)
    requires DecodeToBytes(t) == Some(rest)
    ensures DecodeToBytes(PercentEscape(bs) + t) == Some(bs + rest)
    decreases |bs|
  {
    if bs == [] {
      assert PercentEscape(bs) + t == t;
      assert bs + rest == rest;
    } else {
      var b := bs[0];
      var u := PercentEscape(bs[1..]) + t;
      calc {
        DecodeToBytes(PercentEscape(bs) + t);
        { PercentEscapeCons(bs, t); }
        DecodeToBytes(['%', HexDigit(b / 16), HexDigit(b % 16)] + u);
        { DecodePercentEscape(bs[1..], t, rest); DecodeOneEscape(b, u, bs[1..] + rest); }
        Some([b] + (bs[1..] + rest));
        { assert [b] + (bs[1..] + rest) == bs + rest; }
        Some(bs + rest);
      }
    }
  }

  /** Percent-decoding the encoded string yields exactly the UTF-8 bytes of the input. */
  lemma {:induction false} DecodeEncode(s: string)
    ensures DecodeToBytes(EncodeUriComponent(s)) == Some(Utf8String(s))
    decreases |s|
  {
    if s != "" {
      var t := EncodeUriComponent(s[1..]);
      DecodeEncode(s[1..]);
      if IsUnreserved(s[0]) {
        assert ([s[0]] + t)[1..] == t;
      } else {
        DecodePercentEscape(Utf8(s[0]), t, Utf8String(s[1..]));
      }
    }
  }

}
