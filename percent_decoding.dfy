/**
 * The replacement `str.replace(/(%[0-9A-Z]{2})+/g, decodeURIComponent)` of
 * middleware/cookies.js: every maximal run of `%` escapes whose two
 * characters are digits or upper-case letters is handed to
 * `decodeURIComponent`, which reads it as UTF-8 octets and throws `URIError`
 * when an escape is not hexadecimal or the octets are not valid UTF-8.
 * Everything else is copied, including escapes written in lower case.
 */
module PercentDecoding {
  import opened Wrappers

  /** The two errors `decode` can raise. */
  datatype JsError = TypeError | URIError

  /** `[0-9A-Z]` */
  predicate IsEscapeChar(c: char)
  {
    '0' <= c <= '9' || 'A' <= c <= 'Z'
  }

  /** `%[0-9A-Z]{2}` matches at the start of `s`. */
  predicate StartsWithEscape(s: string)
  {
    |s| >= 3 && s[0] == '%' && IsEscapeChar(s[1]) && IsEscapeChar(s[2])
  }

  /** How many escapes the greedy `(...)+` takes at the start of `s`. */
  function EscapeRun(s: string): (n: nat)
    ensures 3 * n <= |s|
    ensures n > 0 <==> StartsWithEscape(s)
    ensures forall j :: 0 <= j < n ==> StartsWithEscape(s[3 * j..])
    ensures !StartsWithEscape(s[3 * n..])
    decreases |s|
  {
    if StartsWithEscape(s) then
      var m := EscapeRun(s[3..]);
      assert forall j :: 1 <= j < m + 1 ==> s[3 * j..] == s[3..][3 * (j - 1)..];
      assert s[3 * (m + 1)..] == s[3..][3 * m..];
      1 + m
    else
      assert s[3 * 0..] == s;
      0
  }

  /** A hexadecimal digit as `decodeURIComponent` reads it. */
  function HexValue(c: char): Option<nat>
  {
    if '0' <= c <= '9' then Some(c as int - '0' as int)
    else if 'A' <= c <= 'F' then Some(c as int - 'A' as int + 10)
    else if 'a' <= c <= 'f' then Some(c as int - 'a' as int + 10)
    else None
  }

  /** The octets a run of escapes spells, or None if an escape is not hexadecimal. */
  function Octets(run: string): (r: Option<seq<nat>>)
    ensures r.Some? ==> 3 * |r.value| <= |run| < 3 * |r.value| + 3
    ensures r.Some? ==> forall i :: 0 <= i < |r.value| ==> r.value[i] < 256
    decreases |run|
  {
    if |run| < 3 then Some([])
    else
      match (HexValue(run[1]), HexValue(run[2]), Octets(run[3..]))
      case (Some(hi), Some(lo), Some(rest)) => if hi < 16 && lo < 16 then Some([hi * 16 + lo] + rest) else None
      case _ => None
  }

  /** The length of the UTF-8 sequence a lead octet opens; 0 for a continuation
      octet or a lead of five or more bits. */
  function LeadLength(b: nat): (n: nat)
    ensures n <= 4
  {
    if b < 0x80 then 1
    else if 0xC0 <= b < 0xE0 then 2
    else if 0xE0 <= b < 0xF0 then 3
    else if 0xF0 <= b < 0xF8 then 4
    else 0
  }

  predicate IsContinuation(b: nat)
  {
    0x80 <= b < 0xC0
  }

  /** The code point of a well-formed sequence of `n` octets. */
  function CodePoint(bs: seq<nat>): (cp: nat)
    requires 1 <= |bs| <= 4 && LeadLength(bs[0]) == |bs|
    requires forall i :: 1 <= i < |bs| ==> IsContinuation(bs[i])
    ensures |bs| == 1 ==> cp < 0x80
    ensures |bs| == 2 ==> cp < 0x800
    ensures |bs| == 3 ==> cp < 0x10000
    ensures |bs| == 4 ==> cp < 0x200000
  {
    if |bs| == 1 then bs[0]
    else
      assert IsContinuation(bs[1]);
      if |bs| == 2 then (bs[0] - 0xC0) * 0x40 + (bs[1] - 0x80)
      else
        assert IsContinuation(bs[2]);
        if |bs| == 3 then (bs[0] - 0xE0) * 0x1000 + (bs[1] - 0x80) * 0x40 + (bs[2] - 0x80)
        else
          assert IsContinuation(bs[3]);
          (bs[0] - 0xF0) * 0x40000 + (bs[1] - 0x80) * 0x1000 + (bs[2] - 0x80) * 0x40 + (bs[3] - 0x80)
  }

  /** Not overlong, not a surrogate, not beyond U+10FFFF. */
  predicate WellFormed(n: nat, cp: nat)
  {
    if n == 1 then cp < 0x80
    else if n == 2 then 0x80 <= cp < 0x800
    else if n == 3 then 0x800 <= cp < 0x10000 && !(0xD800 <= cp < 0xE000)
    else 0x10000 <= cp < 0x110000
  }

  /** UTF-8 decoding as `decodeURIComponent` does it; None stands for `URIError`. */
  function Utf8Decode(octets: seq<nat>): (r: Option<string>)
    ensures r.Some? ==> |r.value| <= |octets|
    ensures octets == [] ==> r == Some([])
    decreases |octets|
  {
    if octets == [] then Some([])
    else
      var n := LeadLength(octets[0]);
      if n == 0 || |octets| < n || !(forall i :: 1 <= i < n ==> IsContinuation(octets[i])) then None
      else
        var cp := CodePoint(octets[..n]);
        if !WellFormed(n, cp) then None
        else
          match Utf8Decode(octets[n..])
          case None => None
          case Some(rest) => Some([cp as char] + rest)
  }

  /** `decodeURIComponent` applied to a run of escapes. */
  function DecodeRun(run: string): (r: Result<string, JsError>)
    ensures r.Ok? ==> 3 * |r.value| <= |run|
    ensures r.Err? ==> r.error == URIError
  {
    match Octets(run)
    case None => Err(URIError)
    case Some(octets) =>
      match Utf8Decode(octets)
      case None => Err(URIError)
      case Some(s) => Ok(s)
  }

  /** The global replacement over the whole string. */
  function DecodeEscapes(s: string): (r: Result<string, JsError>)
    ensures r.Ok? ==> |r.value| <= |s|
    ensures r.Err? ==> r.error == URIError
    decreases |s|
  {
    if s == [] then Ok([])
    else if StartsWithEscape(s) then
      var n := 3 * EscapeRun(s);
      match (DecodeRun(s[..n]), DecodeEscapes(s[n..]))
      case (Ok(d), Ok(rest)) => Ok(d + rest)
      case (Err(e), _) => Err(e)
      case (_, Err(e)) => Err(e)
    else
      match DecodeEscapes(s[1..])
      case Ok(rest) => Ok([s[0]] + rest)
      case Err(e) => Err(e)
  }

  /** A string in which no escape pattern starts anywhere is returned as it is. */
  lemma {:induction false} NoEscapeUnchanged(s: string)
    requires forall i :: 0 <= i < |s| ==> !StartsWithEscape(s[i..])
    ensures DecodeEscapes(s) == Ok(s)
    decreases |s|
  {
    if s != [] {
      assert s[0..] == s;
      forall i | 0 <= i < |s[1..]| ensures !StartsWithEscape(s[1..][i..]) {
        assert s[1..][i..] == s[i + 1..];
      }
      NoEscapeUnchanged(s[1..]);
      assert [s[0]] + s[1..] == s;
    }
  }

  /** Text before the first escape is copied through, and an error further on
      is passed through unchanged. */
  lemma {:induction false} PlainPrefixKept(x: string, y: string)
    requires forall i :: 0 <= i < |x| ==> !StartsWithEscape((x + y)[i..])
    ensures DecodeEscapes(y).Ok? ==> DecodeEscapes(x + y) == Ok(x + DecodeEscapes(y).value)
    ensures DecodeEscapes(y).Err? ==> DecodeEscapes(x + y) == DecodeEscapes(y)
    decreases |x|
  {
    if x == [] {
      assert x + y == y;
      if DecodeEscapes(y).Ok? {
        assert x + DecodeEscapes(y).value == DecodeEscapes(y).value;
      }
    } else {
      var s := x + y;
      assert s[0..] == s;
      assert s[1..] == x[1..] + y;
      forall i | 0 <= i < |x[1..]| ensures !StartsWithEscape((x[1..] + y)[i..]) {
        assert (x[1..] + y)[i..] == s[i + 1..];
      }
      PlainPrefixKept(x[1..], y);
      if DecodeEscapes(y).Ok? {
        assert [x[0]] + (x[1..] + DecodeEscapes(y).value) == x + DecodeEscapes(y).value;
      }
    }
  }

  /** A string with no `%` is returned as it is. */
  lemma NoPercentUnchanged(s: string)
    requires '%' !in s
    ensures DecodeEscapes(s) == Ok(s)
  {
    forall i | 0 <= i < |s| ensures !StartsWithEscape(s[i..]) {
      assert s[i..][0] == s[i];
    }
    NoEscapeUnchanged(s);
  }

  // Round trip: the upper-case percent-encoding of an ASCII string decodes back to it.

  function HexDigitUpper(d: nat): (c: char)
    requires d < 16
    ensures IsEscapeChar(c) && HexValue(c) == Some(d)
  {
    "0123456789ABCDEF"[d]
  }

  predicate IsAscii(s: string)
  {
    forall i :: 0 <= i < |s| ==> (s[i] as int) < 0x80
  }

  /** Every character written as `%XY` with upper-case hexadecimal digits. */
  function PercentEncode(s: string): (e: string)
    requires IsAscii(s)
    ensures |e| == 3 * |s|
  {
    if s == [] then []
    else ['%', HexDigitUpper(s[0] as int / 16), HexDigitUpper(s[0] as int % 16)] + PercentEncode(s[1..])
  }

  function Codes(s: string): seq<nat>
  {
    if s == [] then [] else [s[0] as int] + Codes(s[1..])
  }

  lemma {:induction false} EncodedIsOneRun(s: string)
    requires IsAscii(s)
    ensures EscapeRun(PercentEncode(s)) == |s|
    decreases |s|
  {
    if s != [] {
      var e := PercentEncode(s);
      assert e[3..] == PercentEncode(s[1..]);
      EncodedIsOneRun(s[1..]);
    } else {
      assert PercentEncode(s) == [];
    }
  }

  lemma {:induction false} EncodedOctets(s: string)
    requires IsAscii(s)
    ensures Octets(PercentEncode(s)) == Some(Codes(s))
    decreases |s|
  {
    if s != [] {
      var e := PercentEncode(s);
      var c := s[0] as int;
      SplitByte(c);
      var hi, lo := c / 16, c % 16;
      assert e[1] == HexDigitUpper(hi) && e[2] == HexDigitUpper(lo);
      assert e[3..] == PercentEncode(s[1..]);
      EncodedOctets(s[1..]);
      OctetsStep(e, hi, lo);
    }
  }

  /** One escape of known digits in front of a readable run. */
  lemma OctetsStep(run: string, hi: nat, lo: nat)
    requires |run| >= 3 && hi < 16 && lo < 16
    requires HexValue(run[1]) == Some(hi) && HexValue(run[2]) == Some(lo) && Octets(run[3..]).Some?
    ensures Octets(run) == Some([hi * 16 + lo] + Octets(run[3..]).value)
  {
  }

  lemma SplitByte(c: nat)
    requires c < 0x80
    ensures c / 16 < 16 && c % 16 < 16 && c / 16 * 16 + c % 16 == c
  {
  }

  lemma {:induction false} AsciiOctetsDecode(s: string)
    requires IsAscii(s)
    ensures Utf8Decode(Codes(s)) == Some(s)
    decreases |s|
  {
    if s != [] {
      var cs := Codes(s);
      assert cs[0] == s[0] as int && cs[1..] == Codes(s[1..]);
      assert cs[..1] == [cs[0]];
      AsciiOctetsDecode(s[1..]);
      assert [(s[0] as int) as char] + s[1..] == s;
    }
  }

  /** Decoding the upper-case percent-encoding of an ASCII string gives the string back. */
  lemma AsciiRoundTrip(s: string)
    requires IsAscii(s)
    ensures DecodeEscapes(PercentEncode(s)) == Ok(s)
  {
    var e := PercentEncode(s);
    if s != [] {
      EncodedIsOneRun(s);
      EncodedOctets(s);
      AsciiOctetsDecode(s);
      assert e[..3 * |s|] == e && e[3 * |s|..] == [];
      assert s + [] == s;
    }
  }

  /** Escapes written in lower case are not touched. */
  lemma LowerCaseEscapeKept()
    ensures DecodeEscapes("%2f") == Ok("%2f")
  {
    NoEscapeUnchanged("%2f");
  }

  /** An escape whose characters are letters beyond F throws `URIError`. */
  lemma NonHexEscapeThrows()
    ensures DecodeEscapes("%ZZ") == Err(URIError)
  {
    assert StartsWithEscape("%ZZ");
    assert EscapeRun("%ZZ") == 1;
    assert "%ZZ"[..3] == "%ZZ";
  }

  /** A run of escapes is decoded as one UTF-8 sequence: `%C3%A9` is `é`. */
  lemma TwoOctetEscape()
    ensures DecodeEscapes("%C3%A9") == Ok("é")
  {
    var s := "%C3%A9";
    assert s[3..] == "%A9" && s[3..][3..] == [];
    assert EscapeRun(s) == 2;
    assert s[..6] == s && s[6..] == [];
    assert HexValue('A') == Some(10) && HexValue('9') == Some(9);
    assert HexValue('C') == Some(12) && HexValue('3') == Some(3);
    assert Octets([]) == Some([]);
    var t := "%A9";
    assert t[1] == 'A' && t[2] == '9' && t[3..] == [];
    var a9: seq<nat> := [0xA9];
    assert a9 + [] == a9;
    assert Octets(t) == Some(a9);
    assert s[1] == 'C' && s[2] == '3' && s[3..] == t;
    var c3a9: seq<nat> := [0xC3, 0xA9];
    assert [0xC3] + a9 == c3a9;
    assert Octets(s) == Some(c3a9);
    var o: seq<nat> := [0xC3, 0xA9];
    assert o[..2] == o && o[2..] == [];
    assert CodePoint(o) == 0xE9;
    assert Utf8Decode(o[2..]) == Some([]);
    assert [0xE9 as char] + [] == "é";
    assert Utf8Decode(o) == Some("é");
    assert DecodeRun(s[..6]) == Ok("é");
    assert DecodeEscapes(s[6..]) == Ok([]);
    assert "é" + [] == "é";
  }
}
