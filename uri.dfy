/** `encodeURIComponent` as section 19.2.6 of ECMA-262 defines it: every
    character outside `A-Z a-z 0-9 - _ . ! ~ * ' ( )` is written as the
    UTF-8 bytes of its code point, each as `%` and two upper-case hex
    digits (percent-encoding, section 2.1 of RFC 3986). A decoder that
    undoes it is given as the reference the encoder is proved against.

    Characters are Unicode scalar values, so the lone-surrogate case in
    which `encodeURIComponent` throws cannot arise. */
module Uri {
  import opened Wrappers

  type byte = x: int | 0 <= x < 256

  /** The characters `encodeURIComponent` leaves as they are. */
  predicate Unreserved(c: char) {
    ('A' <= c <= 'Z') || ('a' <= c <= 'z') || ('0' <= c <= '9')
    || c == '-' || c == '_' || c == '.' || c == '!' || c == '~' || c == '*' || c == '\'' || c == '(' || c == ')'
  }

  // -----------------------------------------------------------------------
  // UTF-8

  /** The UTF-8 encoding of one code point: one to four bytes. */
  function Utf8Char(c: char): (bs: seq<byte>)
    ensures 1 <= |bs| <= 4
    ensures (c as int) < 0x80 <==> |bs| == 1
    ensures |bs| == 1 ==> bs[0] == c as int
  {
    var v := c as int;
    if v < 0x80 then [v]
    else if v < 0x800 then [0xC0 + v / 64, 0x80 + v % 64]
    else if v < 0x10000 then [0xE0 + v / 4096, 0x80 + (v / 64) % 64, 0x80 + v % 64]
    else [0xF0 + v / 262144, 0x80 + (v / 4096) % 64, 0x80 + (v / 64) % 64, 0x80 + v % 64]
  }

  function Utf8(s: string): seq<byte> {
    if |s| == 0 then [] else Utf8Char(s[0]) + Utf8(s[1..])
  }

  /** The length of the sequence a lead byte announces; 0 for a byte that
      cannot start one. */
  function SequenceLength(b: byte): nat {
    if b < 0x80 then 1
    else if 0xC0 <= b < 0xE0 then 2
    else if 0xE0 <= b < 0xF0 then 3
    else if 0xF0 <= b < 0xF8 then 4
    else 0
  }

  predicate Continuation(b: byte) {
    0x80 <= b < 0xC0
  }

  /** The code point of a sequence whose length its lead byte announces. */
  function CodePoint(bs: seq<byte>): int
    requires 1 <= |bs| <= 4 && SequenceLength(bs[0]) == |bs|
  {
    var b0: int := bs[0];
    if |bs| == 1 then b0
    else
      var b1: int := bs[1];
      if |bs| == 2 then (b0 - 0xC0) * 64 + (b1 - 0x80)
      else
        var b2: int := bs[2];
        if |bs| == 3 then ((b0 - 0xE0) * 64 + (b1 - 0x80)) * 64 + (b2 - 0x80)
        else
          var b3: int := bs[3];
          (((b0 - 0xF0) * 64 + (b1 - 0x80)) * 64 + (b2 - 0x80)) * 64 + (b3 - 0x80)
  }

  predicate IsScalar(v: int) {
    (0 <= v < 0xD800) || (0xE000 <= v < 0x110000)
  }

  /** Decoding UTF-8; `None` for a malformed sequence. */
  function Utf8Decode(bs: seq<byte>): Option<string>
    decreases |bs|
  {
    if |bs| == 0 then Some("")
    else
      var n := SequenceLength(bs[0]);
      if n == 0 || |bs| < n || exists i :: 1 <= i < n && !Continuation(bs[i]) then None
      else
        var v := CodePoint(bs[..n]);
        if !IsScalar(v) then None
        else
          match Utf8Decode(bs[n..])
          case None => None
          case Some(rest) => Some([v as char] + rest)
  }

  lemma DivDiv(v: nat)
    ensures v / 64 / 64 == v / 4096
    ensures v / 4096 / 64 == v / 262144
  {
  }

  /** The bytes of one code point decode back to it. */
  lemma Utf8CharDecodes(c: char)
    ensures var bs := Utf8Char(c);
            && SequenceLength(bs[0]) == |bs|
            && (forall i :: 1 <= i < |bs| ==> Continuation(bs[i]))
            && CodePoint(bs) == c as int
  {
    var v := c as int;
    DivDiv(v);
    assert v == (v / 64) * 64 + v % 64;
    assert v / 64 == (v / 4096) * 64 + (v / 64) % 64;
    assert v / 4096 == (v / 262144) * 64 + (v / 4096) % 64;
  }

  /** Decoding the bytes of a code point followed by more bytes gives the
      code point followed by the decoding of the rest. */
  lemma Utf8DecodeStep(c: char, rest: seq<byte>)
    ensures Utf8Decode(Utf8Char(c) + rest) ==
              match Utf8Decode(rest)
              case None => None
              case Some(r) => Some([c] + r)
  {
    var bs := Utf8Char(c);
    var all := bs + rest;
    Utf8CharDecodes(c);
    var n := |bs|;
    assert all[..n] == bs;
    assert all[n..] == rest;
    assert forall i :: 1 <= i < n ==> all[i] == bs[i];
    assert (c as int) as char == c;
  }

  /** UTF-8 decoding undoes UTF-8 encoding. */
  lemma {:induction false} Utf8RoundTrip(s: string)
    ensures Utf8Decode(Utf8(s)) == Some(s)
  {
    if |s| > 0 {
      Utf8RoundTrip(s[1..]);
      Utf8DecodeStep(s[0], Utf8(s[1..]));
      assert [s[0]] + s[1..] == s;
    }
  }

  // -----------------------------------------------------------------------
  // Percent-encoding

  /** The upper-case hex digit of a value below 16. */
  function HexDigit(d: nat): (c: char)
    requires d < 16
    ensures IsUpperHex(c)
  {
    if d < 10 then ('0' as int + d) as char else ('A' as int + d - 10) as char
  }

  predicate IsUpperHex(c: char) {
    ('0' <= c <= '9') || ('A' <= c <= 'F')
  }

  /** The value of a hex digit of either case. */
  function HexValue(c: char): (d: Option<nat>)
    ensures d.Some? ==> d.value < 16
    ensures d.Some? <==> IsUpperHex(c) || ('a' <= c <= 'f')
  {
    if '0' <= c <= '9' then Some(c as int - '0' as int)
    else if 'A' <= c <= 'F' then Some(c as int - 'A' as int + 10)
    else if 'a' <= c <= 'f' then Some(c as int - 'a' as int + 10)
    else None
  }

  lemma HexDigitValue(d: nat)
    requires d < 16
    ensures HexValue(HexDigit(d)) == Some(d)
  {
  }

  /** `%` and the two hex digits of a byte. */
  function Escape(b: byte): (t: string)
    ensures |t| == 3 && t[0] == '%' && IsUpperHex(t[1]) && IsUpperHex(t[2])
  {
    ['%', HexDigit(b / 16), HexDigit(b % 16)]
  }

  function EscapeAll(bs: seq<byte>): (t: string)
    ensures |t| == 3 * |bs|
  {
    if |bs| == 0 then "" else Escape(bs[0]) + EscapeAll(bs[1..])
  }

  /** The encoding of one character. */
  function EncodeChar(c: char): (t: string)
    ensures 1 <= |t| <= 12
  {
    if Unreserved(c) then [c] else EscapeAll(Utf8Char(c))
  }

  /** `encodeURIComponent(s)`. */
  function EncodeURIComponent(s: string): (t: string)
    ensures |s| <= |t| <= 12 * |s|
  {
    if |s| == 0 then "" else EncodeChar(s[0]) + EncodeURIComponent(s[1..])
  }

  /** Reading back the bytes of a percent-encoded string: `%` and two hex
      digits give a byte, an ASCII character gives its own code; anything
      else is malformed. */
  function PercentDecode(t: string): Option<seq<byte>>
    decreases |t|
  {
    if |t| == 0 then Some([])
    else if t[0] == '%' then
      if |t| >= 3 && HexValue(t[1]).Some? && HexValue(t[2]).Some? then
        match PercentDecode(t[3..])
        case None => None
        case Some(rest) => Some([HexValue(t[1]).value * 16 + HexValue(t[2]).value] + rest)
      else None
    else if (t[0] as int) < 0x80 then
      match PercentDecode(t[1..])
      case None => None
      case Some(rest) => Some([t[0] as int] + rest)
    else None
  }

  /** `decodeURIComponent` on the strings the encoder produces. */
  function DecodeURIComponent(t: string): Option<string> {
    match PercentDecode(t)
    case None => None
    case Some(bs) => Utf8Decode(bs)
  }

  // -----------------------------------------------------------------------
  // Properties

  /** Encoded text: unreserved characters and `%XX` triplets with
      upper-case hex digits, nothing else. */
  predicate WellEncoded(t: string)
    decreases |t|
  {
    if |t| == 0 then true
    else if Unreserved(t[0]) then WellEncoded(t[1..])
    else |t| >= 3 && t[0] == '%' && IsUpperHex(t[1]) && IsUpperHex(t[2]) && WellEncoded(t[3..])
  }

  lemma {:induction false} WellEncodedAppend(a: string, b: string)
    requires WellEncoded(a) && WellEncoded(b)
    ensures WellEncoded(a + b)
    decreases |a|
  {
    var ab := a + b;
    if |a| == 0 {
      assert ab == b;
    } else if Unreserved(a[0]) {
      assert ab[0] == a[0];
      assert ab[1..] == a[1..] + b;
      WellEncodedAppend(a[1..], b);
    } else {
      assert ab[0] == a[0] && ab[1] == a[1] && ab[2] == a[2];
      assert ab[3..] == a[3..] + b;
      WellEncodedAppend(a[3..], b);
    }
  }

  lemma {:induction false} EscapeAllWellEncoded(bs: seq<byte>)
    ensures WellEncoded(EscapeAll(bs))
  {
    if |bs| > 0 {
      EscapeAllWellEncoded(bs[1..]);
      var e := Escape(bs[0]);
      assert !Unreserved(e[0]);
      assert WellEncoded(e) by {
        assert e[3..] == "";
      }
      WellEncodedAppend(e, EscapeAll(bs[1..]));
    }
  }

  /** The encoder's output holds only unreserved characters and `%XX`
      triplets. */
  lemma {:induction false} EncodedIsWellEncoded(s: string)
    ensures WellEncoded(EncodeURIComponent(s))
  {
    if |s| > 0 {
      EncodedIsWellEncoded(s[1..]);
      if Unreserved(s[0]) {
        assert WellEncoded([s[0]]) by {
          assert [s[0]][1..] == "";
        }
      } else {
        EscapeAllWellEncoded(Utf8Char(s[0]));
      }
      WellEncodedAppend(EncodeChar(s[0]), EncodeURIComponent(s[1..]));
    }
  }

  /** Well-encoded text holds none of the characters that delimit a URL's
      query: no `&`, `=`, `#`, `?`, `/` and no space. */
  lemma {:induction false} WellEncodedHasNoDelimiters(t: string)
    requires WellEncoded(t)
    ensures '&' !in t && '=' !in t && '#' !in t && '?' !in t && '/' !in t && ' ' !in t
    decreases |t|
  {
    if |t| > 0 {
      if Unreserved(t[0]) {
        WellEncodedHasNoDelimiters(t[1..]);
        assert t == [t[0]] + t[1..];
      } else {
        WellEncodedHasNoDelimiters(t[3..]);
        assert t == t[..3] + t[3..];
      }
    }
  }

  lemma {:induction false} PercentDecodeEscapes(bs: seq<byte>, t: string)
    ensures PercentDecode(EscapeAll(bs) + t) ==
              match PercentDecode(t)
              case None => None
              case Some(r) => Some(bs + r)
  {
    if |bs| > 0 {
      var e := Escape(bs[0]);
      var all := EscapeAll(bs) + t;
      assert all == e + (EscapeAll(bs[1..]) + t);
      assert all[3..] == EscapeAll(bs[1..]) + t;
      assert all[0] == '%' && all[1] == e[1] && all[2] == e[2];
      HexDigitValue(bs[0] / 16);
      HexDigitValue(bs[0] % 16);
      PercentDecodeEscapes(bs[1..], t);
      assert [bs[0]] + bs[1..] == bs;
      match PercentDecode(t)
      case None =>
      case Some(r) =>
        assert [bs[0]] + (bs[1..] + r) == bs + r;
    } else {
      assert EscapeAll(bs) + t == t;
      match PercentDecode(t)
      case None =>
      case Some(r) =>
        assert bs + r == r;
    }
  }

  lemma PercentDecodeEncodedChar(c: char, t: string)
    ensures PercentDecode(EncodeChar(c) + t) ==
              match PercentDecode(t)
              case None => None
              case Some(r) => Some(Utf8Char(c) + r)
  {
    if Unreserved(c) {
      assert ([c] + t)[1..] == t;
    } else {
      PercentDecodeEscapes(Utf8Char(c), t);
    }
  }

  /** Percent-decoding the encoding gives the UTF-8 bytes of the text. */
  lemma {:induction false} PercentDecodeEncoded(s: string)
    ensures PercentDecode(EncodeURIComponent(s)) == Some(Utf8(s))
  {
    if |s| > 0 {
      PercentDecodeEncoded(s[1..]);
      PercentDecodeEncodedChar(s[0], EncodeURIComponent(s[1..]));
    }
  }

  /** Decoding undoes `encodeURIComponent`. */
  lemma DecodeEncoded(s: string)
    ensures DecodeURIComponent(EncodeURIComponent(s)) == Some(s)
  {
    PercentDecodeEncoded(s);
    Utf8RoundTrip(s);
  }

  /** Text made only of unreserved characters is left as it is. */
  lemma {:induction false} UnreservedUnchanged(s: string)
    requires forall i :: 0 <= i < |s| ==> Unreserved(s[i])
    ensures EncodeURIComponent(s) == s
  {
    if |s| > 0 {
      UnreservedUnchanged(s[1..]);
      assert [s[0]] + s[1..] == s;
    }
  }

  /** A space is `%20`, a comma `%2C`, and a two-byte character such as
      `é` two triplets. */
  lemma EncodingExamples()
    ensures EncodeURIComponent(" ") == "%20"
    ensures EncodeURIComponent(",") == "%2C"
    ensures EncodeURIComponent("é") == "%C3%A9"
  {
    assert EscapeAll([0x20]) == Escape(0x20) + EscapeAll([]);
    assert EscapeAll([0x2C]) == Escape(0x2C) + EscapeAll([]);
    assert Utf8Char('é') == [0xC3, 0xA9];
    assert EscapeAll([0xC3, 0xA9]) == Escape(0xC3) + EscapeAll([0xA9]);
    assert EscapeAll([0xA9]) == Escape(0xA9) + EscapeAll([]);
  }
}
