/** Percent encoding (section 2.1 of RFC 3986) over UTF-8 (section 3 of RFC 3629). */
module Percent {
  import opened Results
  import opened Bytes

  type octet = n: nat | n < 256

  function Utf8Char(c: char): (r: seq<octet>)
    ensures 1 <= |r| <= 4
  {
    var n := c as int;
    if n < 0x80 then [n]
    else if n < 0x800 then [0xC0 + n / 64, 0x80 + n % 64]
    else if n < 0x1_0000 then [0xE0 + n / 4096, 0x80 + n / 64 % 64, 0x80 + n % 64]
    else [0xF0 + n / 262144, 0x80 + n / 4096 % 64, 0x80 + n / 64 % 64, 0x80 + n % 64]
  }

  function Utf8(s: string): seq<octet> {
    if s == "" then [] else Utf8Char(s[0]) + Utf8(s[1..])
  }

  function Length(lead: octet): nat {
    if lead < 0x80 then 1 else if lead < 0xE0 then 2 else if lead < 0xF0 then 3 else 4
  }

  lemma LeadTellsLength(c: char)
    ensures Length(Utf8Char(c)[0]) == |Utf8Char(c)|
  {
  }

  /** The code point an encoding stands for. */
  function Point(r: seq<octet>): int
    requires 1 <= |r| <= 4
  {
    if |r| == 1 then (r[0] as int)
    else if |r| == 2 then 64 * ((r[0] as int) - 0xC0) + ((r[1] as int) - 0x80)
    else if |r| == 3 then 4096 * ((r[0] as int) - 0xE0) + 64 * ((r[1] as int) - 0x80) + ((r[2] as int) - 0x80)
    else 262144 * ((r[0] as int) - 0xF0) + 4096 * ((r[1] as int) - 0x80) + 64 * ((r[2] as int) - 0x80) + ((r[3] as int) - 0x80)
  }

  lemma Base64Digits(n: nat)
    ensures n == 64 * (n / 64) + n % 64
    ensures n / 64 == 64 * (n / 4096) + n / 64 % 64
    ensures n / 4096 == 64 * (n / 262144) + n / 4096 % 64
  {
    assert n / 64 / 64 == n / 4096;
    assert n / 4096 / 64 == n / 262144;
  }

  lemma PointOf(c: char)
    ensures Point(Utf8Char(c)) == c as int
  {
    Base64Digits(c as int);
  }

  lemma CharInjective(a: char, b: char)
    requires Utf8Char(a) == Utf8Char(b)
    ensures a == b
  {
    hide Utf8Char, Point;
    PointOf(a);
    PointOf(b);
    assert a as int as char == b as int as char;
  }

  /** Different texts have different encodings. */
  lemma {:induction false} Utf8Injective(a: string, b: string)
    requires Utf8(a) == Utf8(b)
    ensures a == b
  {
    hide Utf8Char;
    if a != "" && b != "" {
      LeadTellsLength(a[0]);
      LeadTellsLength(b[0]);
      var n := |Utf8Char(a[0])|;
      assert Utf8(a)[0] == Utf8Char(a[0])[0] && Utf8(b)[0] == Utf8Char(b[0])[0];
      assert Utf8(a)[..n] == Utf8Char(a[0]) && Utf8(b)[..n] == Utf8Char(b[0]);
      assert Utf8(a)[n..] == Utf8(a[1..]) && Utf8(b)[n..] == Utf8(b[1..]);
      CharInjective(a[0], b[0]);
      Utf8Injective(a[1..], b[1..]);
    }
  }

  predicate Unreserved(c: char) {
    'A' <= c <= 'Z' || 'a' <= c <= 'z' || '0' <= c <= '9' || c in "_.-~"
  }

  function UpperHex(d: nat): (c: char)
    requires d < 16
    ensures HexValue(c) == Some(d) && Unreserved(c)
  {
    if d < 10 then '0' + d as char else 'A' + (d - 10) as char
  }

  function HexValue(c: char): (d: Option<nat>)
    ensures d.Some? ==> d.value < 16
  {
    if '0' <= c <= '9' then Some(c as int - '0' as int)
    else if 'A' <= c <= 'F' then Some(c as int - 'A' as int + 10)
    else if 'a' <= c <= 'f' then Some(c as int - 'a' as int + 10)
    else None
  }

  function QuoteOctet(b: octet): (s: string)
    ensures s != "" && forall c :: c in s ==> Unreserved(c) || c == '%'
  {
    if b < 0x80 && Unreserved(b as char) then [b as char] else ['%', UpperHex(b / 16), UpperHex(b % 16)]
  }

  function QuoteOctets(bs: seq<octet>): (s: string)
    ensures forall c :: c in s ==> Unreserved(c) || c == '%'
    ensures s == "" <==> bs == []
  {
    if bs == [] then "" else QuoteOctet(bs[0]) + QuoteOctets(bs[1..])
  }

  /** `urllib.parse.quote(s, safe="")`. */
  function Quote(s: string): (q: string)
    ensures forall c :: c in q ==> Unreserved(c) || c == '%'
  {
    QuoteOctets(Utf8(s))
  }

  /** `urllib.parse.unquote_to_bytes`. */
  function Unquote(s: string): seq<octet> {
    if s == "" then []
    else if s[0] == '%' && |s| >= 3 && HexValue(s[1]).Some? && HexValue(s[2]).Some? then
      [16 * HexValue(s[1]).value + HexValue(s[2]).value] + Unquote(s[3..])
    else Utf8Char(s[0]) + Unquote(s[1..])
  }

  lemma UnquoteOctet(b: octet, rest: string)
    ensures Unquote(QuoteOctet(b) + rest) == [b] + Unquote(rest)
  {
    var q := QuoteOctet(b);
    if |q| == 1 {
      assert (q + rest)[0] == b as char && (q + rest)[1..] == rest;
    } else {
      assert (q + rest)[3..] == rest;
    }
  }

  lemma {:induction false} UnquoteOctets(bs: seq<octet>, rest: string)
    ensures Unquote(QuoteOctets(bs) + rest) == bs + Unquote(rest)
  {
    hide QuoteOctet, Unquote;
    if bs == [] {
      assert QuoteOctets(bs) + rest == rest;
    } else {
      UnquoteOctet(bs[0], QuoteOctets(bs[1..]) + rest);
      UnquoteOctets(bs[1..], rest);
      assert QuoteOctets(bs) + rest == QuoteOctet(bs[0]) + (QuoteOctets(bs[1..]) + rest);
      assert [bs[0]] + (bs[1..] + Unquote(rest)) == bs + Unquote(rest);
    }
  }

  /** Every text comes back from its quoted form. */
  lemma QuoteInverts(s: string)
    ensures Unquote(Quote(s)) == Utf8(s)
  {
    UnquoteOctets(Utf8(s), "");
    assert QuoteOctets(Utf8(s)) + "" == Quote(s);
    assert Utf8(s) + Unquote("") == Utf8(s);
  }

  /** Text without escapes stands for itself. */
  lemma {:induction false} UnquoteLiteral(s: string)
    requires '%' !in s
    ensures Unquote(s) == Utf8(s)
  {
    if s != "" {
      UnquoteLiteral(s[1..]);
    }
  }
}
