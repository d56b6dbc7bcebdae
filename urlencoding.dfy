/** `urllib.parse.quote_plus` as the extractor uses it to build a YouTube search link:
    the text is encoded as UTF-8 and every byte outside the always-safe set of
    section 2.3 of RFC 3986 is percent-encoded (section 2.1), except the space,
    which becomes "+". */
module UrlEncoding {
  import opened Text

  newtype byte = x: int | 0 <= x < 256

  /** A byte that follows the lead byte of a multi-byte UTF-8 sequence. */
  predicate IsContinuation(b: byte) { 0x80 <= b < 0xC0 }

  /** The UTF-8 encoding of one character. */
  function Utf8(c: char): (bs: seq<byte>)
    ensures 1 <= |bs| <= 4
    ensures |bs| == 1 <==> (c as int) < 0x80
    ensures |bs| == 1 ==> bs[0] as int == c as int
    ensures |bs| > 1 ==> 0xC0 <= bs[0] && forall k | 1 <= k < |bs| :: IsContinuation(bs[k])
  {
    var n := c as int;
    if n < 0x80 then [n as byte]
    else if n < 0x800 then [(0xC0 + n / 64) as byte, (0x80 + n % 64) as byte]
    else if n < 0x10000 then
      [(0xE0 + n / 4096) as byte, (0x80 + n / 64 % 64) as byte, (0x80 + n % 64) as byte]
    else
      [(0xF0 + n / 262144) as byte, (0x80 + n / 4096 % 64) as byte, (0x80 + n / 64 % 64) as byte,
       (0x80 + n % 64) as byte]
  }

  /** The code point a well-formed UTF-8 sequence of one character stands for. */
  function DecodeOne(bs: seq<byte>): int
    requires 1 <= |bs| <= 4
  {
    if |bs| == 1 then bs[0] as int
    else if |bs| == 2 then (bs[0] as int - 0xC0) * 64 + (bs[1] as int - 0x80)
    else if |bs| == 3 then ((bs[0] as int - 0xE0) * 64 + (bs[1] as int - 0x80)) * 64 + (bs[2] as int - 0x80)
    else (((bs[0] as int - 0xF0) * 64 + (bs[1] as int - 0x80)) * 64 + (bs[2] as int - 0x80)) * 64 + (bs[3] as int - 0x80)
  }

  /** Decoding the UTF-8 form of a character gives the character back. */
  lemma Utf8RoundTrip(c: char)
    ensures DecodeOne(Utf8(c)) == c as int
  {
    var n := c as int;
    if 0x800 <= n < 0x10000 {
      assert n / 64 % 64 == n / 64 - n / 4096 * 64;
    } else if 0x10000 <= n {
      assert n / 4096 % 64 == n / 4096 - n / 262144 * 64;
      assert n / 64 % 64 == n / 64 - n / 4096 * 64;
    }
  }

  /** Python's `s.encode("utf-8")`. */
  function Encode(s: string): (bs: seq<byte>)
    ensures |bs| >= |s|
  {
    if s == "" then [] else Utf8(s[0]) + Encode(s[1..])
  }

  /** Encoding distributes over concatenation. */
  lemma {:induction false} EncodeAppend(a: string, b: string)
    ensures Encode(a + b) == Encode(a) + Encode(b)
    decreases |a|
  {
    if a != "" {
      assert (a + b)[1..] == a[1..] + b;
      EncodeAppend(a[1..], b);
    } else {
      assert a + b == b;
    }
  }

  /** The bytes `quote_plus` never encodes: ASCII letters, digits and `_.-~`. */
  predicate AlwaysSafe(b: byte) {
    || ('A' as int <= b as int <= 'Z' as int)
    || ('a' as int <= b as int <= 'z' as int)
    || ('0' as int <= b as int <= '9' as int)
    || b as int == '_' as int || b as int == '.' as int || b as int == '-' as int || b as int == '~' as int
  }

  predicate IsHexDigit(c: char) { ('0' <= c <= '9') || ('A' <= c <= 'F') }

  /** Upper-case hexadecimal digit of a value below 16. */
  function Hex(d: int): (c: char)
    requires 0 <= d < 16
    ensures IsHexDigit(c)
  {
    if d < 10 then ('0' as int + d) as char else ('A' as int + d - 10) as char
  }

  /** The value of a hexadecimal digit, in either case. */
  function HexValue(c: char): (d: int)
    ensures 0 <= d < 16
  {
    if '0' <= c <= '9' then c as int - '0' as int
    else if 'A' <= c <= 'F' then c as int - 'A' as int + 10
    else if 'a' <= c <= 'f' then c as int - 'a' as int + 10
    else 0
  }

  /** The characters `quote_plus` can produce. */
  predicate UrlSafe(c: char) {
    || ('A' <= c <= 'Z') || ('a' <= c <= 'z') || ('0' <= c <= '9')
    || c == '_' || c == '.' || c == '-' || c == '~' || c == '+' || c == '%'
  }

  /** One byte, quoted. */
  function QuoteByte(b: byte): (s: string)
    ensures 1 <= |s| <= 3
    ensures forall k | 0 <= k < |s| :: UrlSafe(s[k])
  {
    if AlwaysSafe(b) then [b as int as char]
    else if b == 32 then "+"
    else ['%', Hex(b as int / 16), Hex(b as int % 16)]
  }

  function QuoteBytes(bs: seq<byte>): (s: string)
    ensures |s| >= |bs|
    ensures forall k | 0 <= k < |s| :: UrlSafe(s[k])
  {
    if bs == [] then "" else QuoteByte(bs[0]) + QuoteBytes(bs[1..])
  }

  /** Python's `quote_plus(s)`. */
  function QuotePlus(s: string): (r: string)
    ensures forall k | 0 <= k < |r| :: UrlSafe(r[k])
    ensures |r| >= |s|
  {
    QuoteBytes(Encode(s))
  }

  /** Python's `unquote_to_bytes` after `+` is read as a space; `None` for a
      character that is not a byte and cannot have come out of `quote_plus`. */
  function UnquoteBytes(s: string): Option<seq<byte>>
  {
    if s == "" then Some([])
    else
      var (b, n) :=
        if s[0] == '+' then (Some(32 as byte), 1)
        else if s[0] == '%' && |s| >= 3 && IsHexDigit(s[1]) && IsHexDigit(s[2]) then
          (Some((HexValue(s[1]) * 16 + HexValue(s[2])) as byte), 3)
        else if (s[0] as int) < 256 then (Some(s[0] as int as byte), 1)
        else (None, 1);
      match b
      case None => None
      case Some(v) =>
        match UnquoteBytes(s[n..])
        case None => None
        case Some(rest) => Some([v] + rest)
  }

  /** Reading back one quoted byte in front of more text. */
  lemma UnquoteOne(b: byte, rest: string)
    ensures UnquoteBytes(QuoteByte(b) + rest) ==
      match UnquoteBytes(rest)
      case None => None
      case Some(r) => Some([b] + r)
  {
    var q := QuoteByte(b);
    var s := q + rest;
    if AlwaysSafe(b) {
      assert s[1..] == rest;
    } else if b == 32 {
      assert s[1..] == rest;
    } else {
      var hi := b as int / 16;
      var lo := b as int % 16;
      assert HexValue(Hex(hi)) == hi;
      assert HexValue(Hex(lo)) == lo;
      assert s[3..] == rest;
    }
  }

  /** Unquoting gives back exactly the bytes that were quoted. */
  lemma {:induction false} QuoteRoundTrip(bs: seq<byte>)
    ensures UnquoteBytes(QuoteBytes(bs)) == Some(bs)
    decreases |bs|
  {
    if bs != [] {
      QuoteRoundTrip(bs[1..]);
      UnquoteOne(bs[0], QuoteBytes(bs[1..]));
      assert [bs[0]] + bs[1..] == bs;
    }
  }

  /** Quoting distributes over concatenation of bytes. */
  lemma {:induction false} QuoteBytesAppend(a: seq<byte>, b: seq<byte>)
    ensures QuoteBytes(a + b) == QuoteBytes(a) + QuoteBytes(b)
    decreases |a|
  {
    if a != [] {
      assert (a + b)[1..] == a[1..] + b;
      QuoteBytesAppend(a[1..], b);
    } else {
      assert a + b == b;
    }
  }

  /** `quote_plus` distributes over concatenation, so a search text built from a
      topic and a suffix is the quoted topic followed by the quoted suffix. */
  lemma QuotePlusAppend(a: string, b: string)
    ensures QuotePlus(a + b) == QuotePlus(a) + QuotePlus(b)
  {
    EncodeAppend(a, b);
    QuoteBytesAppend(Encode(a), Encode(b));
  }

  /** Text made of always-safe ASCII characters comes out of `quote_plus` unchanged. */
  lemma {:induction false} QuotePlusSafeText(s: string)
    requires forall k | 0 <= k < |s| :: (s[k] as int) < 0x80 && AlwaysSafe(s[k] as int as byte)
    ensures QuotePlus(s) == s
    decreases |s|
  {
    if s != "" {
      QuotePlusSafeText(s[1..]);
      assert s == [s[0]] + s[1..];
      QuotePlusAppend([s[0]], s[1..]);
      assert Encode([s[0]]) == Utf8(s[0]);
    }
  }
}
