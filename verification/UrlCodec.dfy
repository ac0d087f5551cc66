/** Percent encoding and decoding of BIP 21 parameter values. */
module UrlCodec {
  import opened Prelude

  datatype Error = InvalidScheme | InvalidFormat | MissingAddress | InvalidAmount | InvalidParameter

  datatype Result<+T> = Ok(value: T) | Err(error: Error)

  type Byte = b: nat | b < 256

  // ---------------------------------------------------------------------------
  // Characters, bytes and hex digits
  // ---------------------------------------------------------------------------

  function Utf8(c: char): (r: seq<Byte>)
    ensures |r| >= 1
    ensures |r| == 1 <==> c as int < 0x80
    ensures c as int < 0x80 ==> r[0] == c as int
  {
    var n := c as int;
    if n < 0x80 then [n]
    else if n < 0x800 then [0xC0 + n / 64, 0x80 + n % 64]
    else if n < 0x10000 then [0xE0 + n / 4096, 0x80 + n / 64 % 64, 0x80 + n % 64]
    else [0xF0 + n / 262144, 0x80 + n / 4096 % 64, 0x80 + n / 64 % 64, 0x80 + n % 64]
  }

  /** `byte as char`: the Latin-1 character of that number. */
  function Latin(b: Byte): char {
    b as char
  }

  function LatinAll(bytes: seq<Byte>): (r: string)
    ensures |r| == |bytes|
  {
    seq(|bytes|, i requires 0 <= i < |bytes| => Latin(bytes[i]))
  }

  function Utf8All(s: string): (r: seq<Byte>)
    ensures |r| >= |s|
  {
    if s == [] then [] else Utf8(s[0]) + Utf8All(s[1..])
  }

  predicate IsAscii(s: string) {
    forall i :: 0 <= i < |s| ==> s[i] as int < 0x80
  }

  function HexDigit(n: nat): (c: char)
    requires n < 16
    ensures HexValue(c) == Some(n)
  {
    if n < 10 then ('0' as int + n) as char else ('A' as int + n - 10) as char
  }

  function HexValue(c: char): Option<nat> {
    if '0' <= c <= '9' then Some(c as int - '0' as int)
    else if 'A' <= c <= 'F' then Some(c as int - 'A' as int + 10)
    else if 'a' <= c <= 'f' then Some(c as int - 'a' as int + 10)
    else None
  }

  /** `u8::from_str_radix` on two characters: a leading plus sign is accepted. */
  function FromHex(c1: char, c2: char): (r: Option<Byte>) {
    if HexValue(c2).None? then None
    else if c1 == '+' then Some(Low(HexValue(c2).value))
    else if HexValue(c1).None? then None
    else Some(Low(HexValue(c1).value * 16 + HexValue(c2).value))
  }

  function Low(n: nat): Byte {
    n % 256
  }

  // ---------------------------------------------------------------------------
  // Encoding
  // ---------------------------------------------------------------------------

  const RESERVED := " !\"#$%&'()*+,/:;=?@[\\]"

  predicate Escaped(c: char) {
    c in RESERVED || c as int < 0x20 || c as int >= 0x7F
  }

  function Percent(b: Byte): (r: string)
    ensures |r| == 3 && r[0] == '%' && FromHex(r[1], r[2]) == Some(b)
  {
    var high, low := b / 16, b % 16;
    assert high * 16 + low == b && high < 16;
    assert HexDigit(high) != '+';
    ['%', HexDigit(high), HexDigit(low)]
  }

  function PercentAll(bytes: seq<Byte>): string {
    if bytes == [] then [] else Percent(bytes[0]) + PercentAll(bytes[1..])
  }

  function EncodeChar(c: char): string {
    if Escaped(c) then PercentAll(Utf8(c)) else [c]
  }

  function UrlEncode(s: string): string {
    if s == [] then [] else EncodeChar(s[0]) + UrlEncode(s[1..])
  }

  lemma {:induction false} UrlEncodeSnoc(s: string, c: char)
    ensures UrlEncode(s + [c]) == UrlEncode(s) + EncodeChar(c)
  {
    if s == [] {
      assert [c][1..] == [];
      assert [] + [c] == [c];
      assert EncodeChar(c) + [] == EncodeChar(c);
    } else {
      assert (s + [c])[1..] == s[1..] + [c];
      UrlEncodeSnoc(s[1..], c);
      assert EncodeChar(s[0]) + (UrlEncode(s[1..]) + EncodeChar(c)) == (EncodeChar(s[0]) + UrlEncode(s[1..])) + EncodeChar(c);
    }
  }

  method EncodeString(s: string) returns (encoded: string)
    ensures encoded == UrlEncode(s)
  {
    encoded := [];
    var i := 0;
    while i < |s|
      invariant 0 <= i <= |s|
      invariant encoded == UrlEncode(s[..i])
    {
      UrlEncodeSnoc(s[..i], s[i]);
      assert s[..i + 1] == s[..i] + [s[i]];
      encoded := encoded + EncodeChar(s[i]);
      i := i + 1;
    }
    assert s[..i] == s;
  }

  // ---------------------------------------------------------------------------
  // Decoding
  // ---------------------------------------------------------------------------

  function Prepend(front: string, r: Result<string>): Result<string> {
    if r.Ok? then Ok(front + r.value) else r
  }

  function UrlDecode(s: string): Result<string> {
    if s == [] then Ok([])
    else if s[0] == '%' then
      if |s| < 3 || FromHex(s[1], s[2]).None? then Err(InvalidParameter)
      else Prepend([Latin(FromHex(s[1], s[2]).value)], UrlDecode(s[3..]))
    else Prepend([if s[0] == '+' then ' ' else s[0]], UrlDecode(s[1..]))
  }

  method DecodeString(s: string) returns (decoded: Result<string>)
    ensures decoded == UrlDecode(s)
  {
    var out: string := [];
    var i := 0;
    PrependNothing(UrlDecode(s));
    assert s[0..] == s;
    while i < |s|
      invariant 0 <= i <= |s|
      invariant UrlDecode(s) == Prepend(out, UrlDecode(s[i..]))
    {
      ghost var rest := s[i..];
      if s[i] == '%' {
        if i + 2 >= |s| || FromHex(s[i + 1], s[i + 2]).None? {
          return Err(InvalidParameter);
        }
        assert rest[3..] == s[i + 3..];
        PrependTwice(out, [Latin(FromHex(s[i + 1], s[i + 2]).value)], UrlDecode(s[i + 3..]));
        out := out + [Latin(FromHex(s[i + 1], s[i + 2]).value)];
        i := i + 3;
      } else {
        var c := if s[i] == '+' then ' ' else s[i];
        assert rest[1..] == s[i + 1..];
        PrependTwice(out, [c], UrlDecode(s[i + 1..]));
        out := out + [c];
        i := i + 1;
      }
    }
    decoded := Ok(out);
    assert s[i..] == [] && out + [] == out;
  }

  lemma PrependTwice(a: string, b: string, r: Result<string>)
    ensures Prepend(a, Prepend(b, r)) == Prepend(a + b, r)
  {
    if r.Ok? {
      assert a + (b + r.value) == (a + b) + r.value;
    }
  }

  // ---------------------------------------------------------------------------
  // The round trip
  // ---------------------------------------------------------------------------

  lemma DecodeOnePercent(b: Byte, rest: string)
    ensures UrlDecode(Percent(b) + rest) == Prepend([Latin(b)], UrlDecode(rest))
  {
    var text := Percent(b) + rest;
    assert text[0] == '%' && text[1] == Percent(b)[1] && text[2] == Percent(b)[2] && text[3..] == rest;
  }

  lemma {:induction false} DecodePercentAll(bytes: seq<Byte>, rest: string)
    ensures UrlDecode(PercentAll(bytes) + rest) == Prepend(LatinAll(bytes), UrlDecode(rest))
  {
    if bytes == [] {
      assert [] + rest == rest;
      PrependNothing(UrlDecode(rest));
    } else {
      var b, more := bytes[0], bytes[1..];
      calc {
        UrlDecode(PercentAll(bytes) + rest);
        { assert PercentAll(bytes) + rest == Percent(b) + (PercentAll(more) + rest); }
        UrlDecode(Percent(b) + (PercentAll(more) + rest));
        { DecodeOnePercent(b, PercentAll(more) + rest); }
        Prepend([Latin(b)], UrlDecode(PercentAll(more) + rest));
        { DecodePercentAll(more, rest); }
        Prepend([Latin(b)], Prepend(LatinAll(more), UrlDecode(rest)));
        { PrependTwice([Latin(b)], LatinAll(more), UrlDecode(rest)); }
        Prepend([Latin(b)] + LatinAll(more), UrlDecode(rest));
        { assert [Latin(b)] + LatinAll(more) == LatinAll(bytes); }
        Prepend(LatinAll(bytes), UrlDecode(rest));
      }
    }
  }

  lemma PrependNothing(r: Result<string>)
    ensures Prepend([], r) == r
  {
    if r.Ok? {
      assert [] + r.value == r.value;
    }
  }

  lemma DecodeEncodedChar(c: char, rest: string)
    ensures UrlDecode(EncodeChar(c) + rest) == Prepend(LatinAll(Utf8(c)), UrlDecode(rest))
  {
    if Escaped(c) {
      DecodePercentAll(Utf8(c), rest);
    } else {
      assert c != '%' && c != '+' by {
        assert RESERVED[5] == '%' && RESERVED[11] == '+';
      }
      assert ([c] + rest)[1..] == rest;
      assert LatinAll(Utf8(c)) == [c];
    }
  }

  lemma LatinConcat(a: seq<Byte>, b: seq<Byte>)
    ensures LatinAll(a + b) == LatinAll(a) + LatinAll(b)
  {
  }

  /** Decoding an encoded text always succeeds and yields its UTF-8 bytes, one character each. */
  lemma {:induction false} DecodeOfEncode(s: string)
    ensures UrlDecode(UrlEncode(s)) == Ok(LatinAll(Utf8All(s)))
  {
    if s != [] {
      DecodeEncodedChar(s[0], UrlEncode(s[1..]));
      DecodeOfEncode(s[1..]);
      LatinConcat(Utf8(s[0]), Utf8All(s[1..]));
    }
  }

  lemma {:induction false} AsciiIsItsOwnBytes(s: string)
    ensures IsAscii(s) ==> LatinAll(Utf8All(s)) == s
    ensures !IsAscii(s) ==> |Utf8All(s)| > |s|
  {
    if s != [] {
      AsciiIsItsOwnBytes(s[1..]);
      if IsAscii(s) {
        assert IsAscii(s[1..]);
        assert LatinAll(Utf8All(s)) == [Latin(Utf8(s[0])[0])] + LatinAll(Utf8All(s[1..]));
      } else if s[0] as int < 0x80 {
        var i :| 0 <= i < |s| && s[i] as int >= 0x80;
        assert s[1..][i - 1] == s[i];
      }
    }
  }

  /** So the round trip is exact for ASCII text and for nothing else. */
  lemma RoundTripIffAscii(s: string)
    ensures UrlDecode(UrlEncode(s)) == Ok(s) <==> IsAscii(s)
  {
    DecodeOfEncode(s);
    AsciiIsItsOwnBytes(s);
  }

  predicate Clean(s: string) {
    forall i :: 0 <= i < |s| ==> s[i] != '&' && s[i] != '=' && s[i] != '?' && s[i] != '+'
  }

  lemma {:induction false} PercentAllClean(bytes: seq<Byte>)
    ensures Clean(PercentAll(bytes))
  {
    if bytes != [] {
      PercentAllClean(bytes[1..]);
    }
  }

  /** Encoded text never contains a character that separates parameters. */
  lemma {:induction false} EncodedIsClean(s: string)
    ensures Clean(UrlEncode(s))
  {
    if s != [] {
      EncodedIsClean(s[1..]);
      PercentAllClean(Utf8(s[0]));
      assert RESERVED[6] == '&' && RESERVED[11] == '+' && RESERVED[16] == '=' && RESERVED[17] == '?';
    }
  }
}
