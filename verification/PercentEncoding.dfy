// Percent-encoding of bytes (RFC 3986, sections 2.1 and 2.3), as urllib's
// quote(v, safe="") does it, and its decoding. Text is its UTF-8 bytes.
module PercentEncoding {
  import opened Prelude

  type Byte = b: nat | b < 256
  type Bytes = seq<Byte>

  predicate Unreserved(c: char) {
    'A' <= c <= 'Z' || 'a' <= c <= 'z' || '0' <= c <= '9' || c == '_' || c == '.' || c == '-' || c == '~'
  }

  function HexDigit(n: nat): (c: char)
    requires n < 16
  {
    if n < 10 then ('0' as int + n) as char else ('A' as int + n - 10) as char
  }

  // Decoders take either case.
  function HexValue(c: char): (n: Option<nat>)
    ensures n.Some? ==> n.value < 16
  {
    if '0' <= c <= '9' then Some(c as int - '0' as int)
    else if 'A' <= c <= 'F' then Some(c as int - 'A' as int + 10)
    else if 'a' <= c <= 'f' then Some(c as int - 'a' as int + 10)
    else None
  }

  function QuoteByte(b: Byte): string {
    if Unreserved(b as char) then [b as char] else ['%', HexDigit(b / 16), HexDigit(b % 16)]
  }

  function Quote(bs: Bytes): (s: string) {
    if |bs| == 0 then "" else QuoteByte(bs[0]) + Quote(bs[1..])
  }

  function Unquote(s: string): (r: Option<Bytes>)
    decreases |s|
  {
    if |s| == 0 then Some([])
    else if s[0] == '%' then
      if |s| < 3 then None
      else
        match (HexValue(s[1]), HexValue(s[2]), Unquote(s[3..]))
        case (Some(h), Some(l), Some(rest)) => Some([h * 16 + l] + rest)
        case _ => None
    else if s[0] as int >= 256 then None
    else
      match Unquote(s[1..])
      case Some(rest) => Some([s[0] as int] + rest)
      case None => None
  }

  lemma UnquoteByte(b: Byte, q: string, rest: Bytes)
    requires Unquote(q) == Some(rest)
    ensures Unquote(QuoteByte(b) + q) == Some([b] + rest)
  {
    var s := QuoteByte(b) + q;
    if Unreserved(b as char) {
      assert s[0] == b as char && s[1..] == q;
    } else {
      assert s[0] == '%' && s[1] == HexDigit(b / 16) && s[2] == HexDigit(b % 16) && s[3..] == q;
    }
  }

  // Decoding what was encoded gives the bytes back.
  lemma {:induction false} UnquoteQuote(bs: Bytes)
    ensures Unquote(Quote(bs)) == Some(bs)
  {
    if |bs| > 0 {
      UnquoteQuote(bs[1..]);
      UnquoteByte(bs[0], Quote(bs[1..]), bs[1..]);
      assert [bs[0]] + bs[1..] == bs;
    }
  }

  lemma QuoteInjective(a: Bytes, b: Bytes)
    requires Quote(a) == Quote(b)
    ensures a == b
  {
    UnquoteQuote(a);
    UnquoteQuote(b);
  }

  // Encoded text holds nothing but unreserved characters and "%".
  lemma {:induction false} QuoteIsSafe(bs: Bytes)
    ensures forall c | c in Quote(bs) :: Unreserved(c) || c == '%'
  {
    if |bs| > 0 {
      QuoteIsSafe(bs[1..]);
      assert forall c | c in Quote(bs) :: c in QuoteByte(bs[0]) || c in Quote(bs[1..]);
    }
  }

  lemma QuoteEmpty(bs: Bytes)
    ensures Quote(bs) == "" <==> bs == []
  {
  }
}
