/** BIP 21 payment URIs: printing, parsing, and exactly which URIs survive the round trip. */
module Bip21 {
  import opened Prelude
  import opened UrlCodec

  /** An amount in BTC; the floating-point text codec is a parameter. */
  type Amount = int

  datatype AmountCodec = AmountCodec(show: Amount -> string, parse: string -> Option<Amount>, nonPositive: Amount -> bool)

  datatype Uri = Uri(address: string, amount: Option<Amount>, labelText: Option<string>, message: Option<string>,
                     params: map<string, string>)

  const SCHEME := "bitcoin:"

  // ---------------------------------------------------------------------------
  // Text helpers
  // ---------------------------------------------------------------------------

  /** The first position of `c`, or the length. */
  function Find(s: string, c: char): (i: nat)
    ensures i <= |s|
    ensures forall j :: 0 <= j < i ==> s[j] != c
    ensures i < |s| ==> s[i] == c
  {
    if s == [] || s[0] == c then 0 else 1 + Find(s[1..], c)
  }

  lemma FindIs(s: string, c: char, i: nat)
    requires i <= |s| && (forall j :: 0 <= j < i ==> s[j] != c) && (i < |s| ==> s[i] == c)
    ensures Find(s, c) == i
  {
  }

  /** The pieces between separators; a text without separators is one piece. */
  function Split(s: string, c: char): (parts: seq<string>)
    ensures |parts| >= 1
    ensures forall i :: 0 <= i < |parts| ==> c !in parts[i]
  {
    var i := Find(s, c);
    if i == |s| then [s] else [s[..i]] + Split(s[i + 1..], c)
  }

  function Join(parts: seq<string>, c: char): string
    requires parts != []
  {
    if |parts| == 1 then parts[0] else parts[0] + [c] + Join(parts[1..], c)
  }

  lemma SplitFirst(first: string, rest: string, c: char)
    requires c !in first
    ensures Split(first, c) == [first]
    ensures Split(first + [c] + rest, c) == [first] + Split(rest, c)
  {
    var text := first + [c] + rest;
    assert forall j :: 0 <= j < |first| ==> text[j] == first[j] && first[j] in first;
    assert text[|first|] == c && text[..|first|] == first && text[|first| + 1..] == rest;
    FindIs(first, c, |first|);
    FindIs(text, c, |first|);
  }

  lemma {:induction false} SplitOfJoin(parts: seq<string>, c: char)
    requires parts != [] && forall i :: 0 <= i < |parts| ==> c !in parts[i]
    ensures Split(Join(parts, c), c) == parts
  {
    if |parts| == 1 {
      SplitFirst(parts[0], "", c);
    } else {
      SplitOfJoin(parts[1..], c);
      SplitFirst(parts[0], Join(parts[1..], c), c);
    }
  }

  // ---------------------------------------------------------------------------
  // Printing
  // ---------------------------------------------------------------------------

  function Field(key: string, text: string): string {
    key + "=" + text
  }

  function ParamFields(params: map<string, string>, order: seq<string>): (r: seq<string>)
    ensures |r| == |order|
  {
    seq(|order|, i requires 0 <= i < |order| =>
                   Field(order[i], UrlEncode(if order[i] in params then params[order[i]] else "")))
  }

  function KnownFields(codec: AmountCodec, u: Uri): seq<string> {
    (if u.amount.Some? then [Field("amount", codec.show(u.amount.value))] else [])
    + (if u.labelText.Some? then [Field("label", UrlEncode(u.labelText.value))] else [])
    + (if u.message.Some? then [Field("message", UrlEncode(u.message.value))] else [])
  }

  function Fields(codec: AmountCodec, u: Uri, order: seq<string>): seq<string> {
    KnownFields(codec, u) + ParamFields(u.params, order)
  }

  /** `order` is the order the parameter map iterates in. */
  function ToString(codec: AmountCodec, u: Uri, order: seq<string>): string {
    var fields := Fields(codec, u, order);
    SCHEME + u.address + if fields == [] then "" else "?" + Join(fields, '&')
  }

  // ---------------------------------------------------------------------------
  // Parsing
  // ---------------------------------------------------------------------------

  function Empty(address: string): Uri {
    Uri(address, None, None, None, map[])
  }

  function KeyOf(param: string): string {
    param[..Find(param, '=')]
  }

  /** A parameter without an equals sign has the empty value. */
  function ValueOf(param: string): Result<string> {
    var i := Find(param, '=');
    if i < |param| then UrlDecode(param[i + 1..]) else Ok("")
  }

  function SetField(codec: AmountCodec, u: Uri, key: string, value: string): Result<Uri> {
    if key == "amount" then
      var a := codec.parse(value);
      if a.None? || codec.nonPositive(a.value) then Err(InvalidAmount) else Ok(u.(amount := Some(a.value)))
    else if key == "label" then Ok(u.(labelText := Some(value)))
    else if key == "message" then Ok(u.(message := Some(value)))
    else Ok(u.(params := u.params[key := value]))
  }

  function ParseParam(codec: AmountCodec, u: Uri, param: string): Result<Uri> {
    if param == [] then Ok(u)
    else if ValueOf(param).Err? then Err(ValueOf(param).error)
    else SetField(codec, u, KeyOf(param), ValueOf(param).value)
  }

  function ParseParams(codec: AmountCodec, u: Uri, params: seq<string>): Result<Uri>
    decreases params
  {
    if params == [] then Ok(u)
    else
      var r := ParseParam(codec, u, params[0]);
      if r.Err? then r else ParseParams(codec, r.value, params[1..])
  }

  function Parse(codec: AmountCodec, text: string): Result<Uri> {
    if !(SCHEME <= text) then Err(InvalidScheme)
    else
      var body := text[|SCHEME|..];
      var i := Find(body, '?');
      if i == 0 then Err(MissingAddress)
      else if i == |body| then Ok(Empty(body))
      else ParseParams(codec, Empty(body[..i]), Split(body[i + 1..], '&'))
  }

  method ParseOneParam(codec: AmountCodec, u: Uri, param: string) returns (r: Result<Uri>)
    ensures r == ParseParam(codec, u, param)
  {
    if param == [] {
      return Ok(u);
    }
    var eq := Find(param, '=');
    var value := "";
    if eq < |param| {
      var decoded := DecodeString(param[eq + 1..]);
      if decoded.Err? {
        return Err(decoded.error);
      }
      value := decoded.value;
    }
    var key := param[..eq];
    if key == "amount" {
      var a := codec.parse(value);
      if a.None? || codec.nonPositive(a.value) {
        return Err(InvalidAmount);
      }
      r := Ok(u.(amount := Some(a.value)));
    } else if key == "label" {
      r := Ok(u.(labelText := Some(value)));
    } else if key == "message" {
      r := Ok(u.(message := Some(value)));
    } else {
      r := Ok(u.(params := u.params[key := value]));
    }
  }

  /** The loop over the parameters, left at the first error. */
  method ParseAllParams(codec: AmountCodec, start: Uri, params: seq<string>) returns (r: Result<Uri>)
    ensures r == ParseParams(codec, start, params)
  {
    var u := start;
    var j := 0;
    while j < |params|
      invariant 0 <= j <= |params|
      invariant ParseParams(codec, start, params) == ParseParams(codec, u, params[j..])
    {
      var next := ParseOneParam(codec, u, params[j]);
      assert params[j..][1..] == params[j + 1..];
      if next.Err? {
        return next;
      }
      u := next.value;
      j := j + 1;
    }
    r := Ok(u);
  }

  method ParseUri(codec: AmountCodec, text: string) returns (r: Result<Uri>)
    ensures r == Parse(codec, text)
  {
    if !(SCHEME <= text) {
      return Err(InvalidScheme);
    }
    var body := text[|SCHEME|..];
    var i := Find(body, '?');
    if i == 0 {
      return Err(MissingAddress);
    }
    if i == |body| {
      return Ok(Empty(body));
    }
    r := ParseAllParams(codec, Empty(body[..i]), Split(body[i + 1..], '&'));
  }

  method ListKnownFields(codec: AmountCodec, u: Uri) returns (fields: seq<string>)
    ensures fields == KnownFields(codec, u)
  {
    fields := [];
    if u.amount.Some? {
      fields := fields + [Field("amount", codec.show(u.amount.value))];
    }
    if u.labelText.Some? {
      var encoded := EncodeString(u.labelText.value);
      fields := fields + [Field("label", encoded)];
    }
    if u.message.Some? {
      var encoded := EncodeString(u.message.value);
      fields := fields + [Field("message", encoded)];
    }
  }

  method ListParamFields(params: map<string, string>, order: seq<string>) returns (fields: seq<string>)
    requires Enumerates(order, params.Keys)
    ensures fields == ParamFields(params, order)
  {
    fields := [];
    var i := 0;
    while i < |order|
      invariant 0 <= i <= |order|
      invariant fields == ParamFields(params, order)[..i]
    {
      var encoded := EncodeString(if order[i] in params then params[order[i]] else "");
      fields := fields + [Field(order[i], encoded)];
      i := i + 1;
    }
  }

  method PrintUri(codec: AmountCodec, u: Uri, order: seq<string>) returns (text: string)
    requires Enumerates(order, u.params.Keys)
    ensures text == ToString(codec, u, order)
  {
    text := SCHEME + u.address;
    var fields := ListKnownFields(codec, u);
    var more := ListParamFields(u.params, order);
    fields := fields + more;
    if fields != [] {
      text := text + ("?" + Join(fields, '&'));
    } else {
      assert text + "" == text;
    }
  }

  // ---------------------------------------------------------------------------
  // What a printed URI parses to
  // ---------------------------------------------------------------------------

  /** What decoding makes of an encoded text: its UTF-8 bytes read as characters. */
  function Mangled(s: string): string {
    LatinAll(Utf8All(s))
  }

  function MangledOption(s: Option<string>): Option<string> {
    if s.Some? then Some(Mangled(s.value)) else None
  }

  function MangledUri(u: Uri): Uri {
    Uri(u.address, u.amount, MangledOption(u.labelText), MangledOption(u.message),
        map k | k in u.params :: Mangled(u.params[k]))
  }

  predicate GoodKey(k: string) {
    '&' !in k && '=' !in k && k != "amount" && k != "label" && k != "message"
  }

  predicate GoodAddress(a: string) {
    a != [] && '?' !in a
  }

  /** The amount's text parses back to it and contains nothing that decoding changes. */
  ghost predicate GoodAmount(codec: AmountCodec, a: Option<Amount>) {
    a.Some? ==>
      && codec.parse(codec.show(a.value)) == Some(a.value) && !codec.nonPositive(a.value)
      && '&' !in codec.show(a.value) && UrlDecode(codec.show(a.value)) == Ok(codec.show(a.value))
  }

  /** The URI's structure can be told apart again: a proper address and proper keys. */
  ghost predicate Printable(u: Uri) {
    GoodAddress(u.address) && forall k :: k in u.params ==> GoodKey(k)
  }

  ghost predicate AllAscii(u: Uri) {
    && (u.labelText.Some? ==> IsAscii(u.labelText.value)) && (u.message.Some? ==> IsAscii(u.message.value))
    && (forall k :: k in u.params ==> IsAscii(u.params[k]))
  }

  lemma FieldParts(key: string, text: string)
    requires '=' !in key
    ensures Field(key, text) != [] && KeyOf(Field(key, text)) == key && ValueOf(Field(key, text)) == UrlDecode(text)
  {
    var f := Field(key, text);
    assert forall j :: 0 <= j < |key| ==> f[j] == key[j] && key[j] in key;
    FindIs(f, '=', |key|);
    assert f[..|key|] == key && f[|key| + 1..] == text;
  }

  lemma ParseField(codec: AmountCodec, u: Uri, key: string, text: string, value: string)
    requires '=' !in key && UrlDecode(text) == Ok(value)
    ensures ParseParam(codec, u, Field(key, text)) == SetField(codec, u, key, value)
  {
    FieldParts(key, text);
  }

  lemma ParseEncoded(codec: AmountCodec, u: Uri, key: string, text: string)
    requires '=' !in key
    ensures ParseParam(codec, u, Field(key, UrlEncode(text))) == SetField(codec, u, key, Mangled(text))
  {
    DecodeOfEncode(text);
    ParseField(codec, u, key, UrlEncode(text), Mangled(text));
  }

  lemma {:induction false} ParseConcat(codec: AmountCodec, u: Uri, a: seq<string>, b: seq<string>)
    ensures ParseParams(codec, u, a + b) ==
            var r := ParseParams(codec, u, a);
            if r.Err? then r else ParseParams(codec, r.value, b)
    decreases a
  {
    if a == [] {
      assert a + b == b;
    } else {
      assert (a + b)[1..] == a[1..] + b;
      var r := ParseParam(codec, u, a[0]);
      if r.Ok? {
        ParseConcat(codec, r.value, a[1..], b);
      }
    }
  }

  lemma ParseOptionalField(codec: AmountCodec, u: Uri, before: seq<string>, mid: Uri, field: seq<string>, after: Uri)
    requires ParseParams(codec, u, before) == Ok(mid)
    requires field == [] ==> after == mid
    requires field != [] ==> |field| == 1 && ParseParam(codec, mid, field[0]) == Ok(after)
    ensures ParseParams(codec, u, before + field) == Ok(after)
  {
    ParseConcat(codec, u, before, field);
    if field != [] {
      assert field == [field[0]];
    }
  }

  lemma ParseKnownFields(codec: AmountCodec, u: Uri)
    requires GoodAmount(codec, u.amount)
    ensures ParseParams(codec, Empty(u.address), KnownFields(codec, u)) ==
            Ok(Uri(u.address, u.amount, MangledOption(u.labelText), MangledOption(u.message), map[]))
  {
    var u0 := Empty(u.address);
    var f1 := if u.amount.Some? then [Field("amount", codec.show(u.amount.value))] else [];
    var f2 := if u.labelText.Some? then [Field("label", UrlEncode(u.labelText.value))] else [];
    var f3 := if u.message.Some? then [Field("message", UrlEncode(u.message.value))] else [];
    var u1 := u0.(amount := u.amount);
    var u2 := u1.(labelText := MangledOption(u.labelText));
    var u3 := u2.(message := MangledOption(u.message));
    if u.amount.Some? {
      ParseField(codec, u0, "amount", codec.show(u.amount.value), codec.show(u.amount.value));
    }
    if u.labelText.Some? {
      ParseEncoded(codec, u1, "label", u.labelText.value);
    }
    if u.message.Some? {
      ParseEncoded(codec, u2, "message", u.message.value);
    }
    assert ParseParams(codec, u0, []) == Ok(u0);
    ParseOptionalField(codec, u0, [], u0, f1, u1);
    assert [] + f1 == f1;
    ParseOptionalField(codec, u0, f1, u1, f2, u2);
    ParseOptionalField(codec, u0, f1 + f2, u2, f3, u3);
  }

  /** The parameters of the listed keys. */
  ghost function Listed(params: map<string, string>, order: seq<string>): map<string, string>
    requires forall i :: 0 <= i < |order| ==> order[i] in params
  {
    if order == [] then map[]
    else Listed(params, order[..|order| - 1])[order[|order| - 1] := Mangled(params[order[|order| - 1]])]
  }

  lemma {:induction false} ListedIsAll(params: map<string, string>, order: seq<string>)
    requires forall i :: 0 <= i < |order| ==> order[i] in params
    ensures forall k :: k in Listed(params, order) <==> k in order
    ensures forall k :: k in Listed(params, order) ==> k in params && Listed(params, order)[k] == Mangled(params[k])
  {
    if order != [] {
      ListedIsAll(params, order[..|order| - 1]);
      assert forall k :: k in order <==> k in order[..|order| - 1] || k == order[|order| - 1];
    }
  }

  lemma ParamFieldsSnoc(params: map<string, string>, order: seq<string>)
    requires order != [] && order[|order| - 1] in params
    ensures ParamFields(params, order) ==
            ParamFields(params, order[..|order| - 1]) + [Field(order[|order| - 1], UrlEncode(params[order[|order| - 1]]))]
  {
  }

  /** One more listed parameter. */
  lemma ParseNextParam(codec: AmountCodec, u: Uri, params: map<string, string>, order: seq<string>)
    requires order != [] && forall i :: 0 <= i < |order| ==> order[i] in params && GoodKey(order[i])
    ensures var k := order[|order| - 1];
            ParseParam(codec, u.(params := Listed(params, order[..|order| - 1])), Field(k, UrlEncode(params[k]))) ==
            Ok(u.(params := Listed(params, order)))
  {
    var k := order[|order| - 1];
    ParseEncoded(codec, u.(params := Listed(params, order[..|order| - 1])), k, params[k]);
  }

  lemma {:induction false} ParseParamFields(codec: AmountCodec, u: Uri, params: map<string, string>, order: seq<string>)
    requires u.params == map[]
    requires forall i :: 0 <= i < |order| ==> order[i] in params && GoodKey(order[i])
    ensures ParseParams(codec, u, ParamFields(params, order)) == Ok(u.(params := Listed(params, order)))
  {
    if order == [] {
      assert ParamFields(params, order) == [];
    } else {
      var front, k := order[..|order| - 1], order[|order| - 1];
      ParseParamFields(codec, u, params, front);
      ParseNextParam(codec, u, params, order);
      ParamFieldsSnoc(params, order);
      ParseOptionalField(codec, u, ParamFields(params, front), u.(params := Listed(params, front)),
                         [Field(k, UrlEncode(params[k]))], u.(params := Listed(params, order)));
    }
  }

  lemma FieldHasNoAmpersand(key: string, text: string)
    requires '&' !in key && '&' !in text
    ensures '&' !in Field(key, text)
  {
  }

  lemma EncodedHasNoAmpersand(s: string)
    ensures '&' !in UrlEncode(s)
  {
    EncodedIsClean(s);
  }

  ghost predicate NoAmpersands(fields: seq<string>) {
    forall i :: 0 <= i < |fields| ==> '&' !in fields[i]
  }

  lemma KnownFieldsHaveNoAmpersand(codec: AmountCodec, u: Uri)
    requires GoodAmount(codec, u.amount)
    ensures NoAmpersands(KnownFields(codec, u))
  {
    if u.amount.Some? {
      FieldHasNoAmpersand("amount", codec.show(u.amount.value));
    }
    if u.labelText.Some? {
      EncodedHasNoAmpersand(u.labelText.value);
      FieldHasNoAmpersand("label", UrlEncode(u.labelText.value));
    }
    if u.message.Some? {
      EncodedHasNoAmpersand(u.message.value);
      FieldHasNoAmpersand("message", UrlEncode(u.message.value));
    }
  }

  lemma ParamFieldsHaveNoAmpersand(params: map<string, string>, order: seq<string>)
    requires NoAmpersands(order)
    ensures NoAmpersands(ParamFields(params, order))
  {
    forall i | 0 <= i < |order| ensures '&' !in ParamFields(params, order)[i] {
      var value := if order[i] in params then params[order[i]] else "";
      EncodedHasNoAmpersand(value);
      FieldHasNoAmpersand(order[i], UrlEncode(value));
    }
  }

  /** A printable URI always parses, to itself with its texts read byte by byte, in every parameter order. */
  lemma ParseOfPrinted(codec: AmountCodec, u: Uri, order: seq<string>)
    requires Printable(u) && GoodAmount(codec, u.amount) && Enumerates(order, u.params.Keys)
    ensures Parse(codec, ToString(codec, u, order)) == Ok(MangledUri(u))
  {
    forall i | 0 <= i < |order| ensures order[i] in u.params && GoodKey(order[i]) {
      assert order[i] in order;
    }
    ParseOfFields(codec, u, order);
    KnownFieldsHaveNoAmpersand(codec, u);
    ParamFieldsHaveNoAmpersand(u.params, order);
    ParseHead(codec, u.address, Fields(codec, u, order));
  }

  lemma ParseOfFields(codec: AmountCodec, u: Uri, order: seq<string>)
    requires GoodAmount(codec, u.amount) && Enumerates(order, u.params.Keys)
    requires forall i :: 0 <= i < |order| ==> order[i] in u.params && GoodKey(order[i])
    ensures ParseParams(codec, Empty(u.address), Fields(codec, u, order)) == Ok(MangledUri(u))
  {
    var mid := Uri(u.address, u.amount, MangledOption(u.labelText), MangledOption(u.message), map[]);
    ParseKnownFields(codec, u);
    ParseParamFields(codec, mid, u.params, order);
    ParseConcat(codec, Empty(u.address), KnownFields(codec, u), ParamFields(u.params, order));
    assert Listed(u.params, order) == MangledUri(u).params by {
      ListedIsAll(u.params, order);
    }
  }

  lemma AddressEndsAtQuery(address: string, query: string)
    requires GoodAddress(address)
    ensures Find(address, '?') == |address|
    ensures var body := address + ("?" + query);
            Find(body, '?') == |address| && body[..|address|] == address && body[|address| + 1..] == query
  {
    var body := address + ("?" + query);
    assert forall j :: 0 <= j < |address| ==> address[j] in address && body[j] == address[j];
    FindIs(address, '?', |address|);
    assert body[|address|] == '?';
    FindIs(body, '?', |address|);
  }

  lemma ParseHead(codec: AmountCodec, address: string, fields: seq<string>)
    requires GoodAddress(address) && NoAmpersands(fields)
    ensures Parse(codec, SCHEME + address + if fields == [] then "" else "?" + Join(fields, '&')) ==
            ParseParams(codec, Empty(address), fields)
  {
    var query := if fields == [] then "" else Join(fields, '&');
    AddressEndsAtQuery(address, query);
    if fields == [] {
      var text := SCHEME + address + "";
      assert text[|SCHEME|..] == address;
    } else {
      var body := address + ("?" + query);
      var text := SCHEME + address + ("?" + query);
      assert text == SCHEME + body;
      assert text[|SCHEME|..] == body && SCHEME <= text;
      SplitOfJoin(fields, '&');
      assert Parse(codec, text) == ParseParams(codec, Empty(body[..|address|]), Split(body[|address| + 1..], '&'));
    }
  }

  // ---------------------------------------------------------------------------
  // What any parsed URI satisfies, and the exact round trip
  // ---------------------------------------------------------------------------

  lemma {:induction false} ParsedKeysAreGood(codec: AmountCodec, u: Uri, params: seq<string>)
    requires forall i :: 0 <= i < |params| ==> '&' !in params[i]
    requires forall k :: k in u.params ==> GoodKey(k)
    ensures var r := ParseParams(codec, u, params);
            r.Ok? ==> r.value.address == u.address && forall k :: k in r.value.params ==> GoodKey(k)
    decreases params
  {
    if params != [] {
      var r := ParseParam(codec, u, params[0]);
      if r.Ok? {
        var key := KeyOf(params[0]);
        assert forall j :: 0 <= j < |key| ==> key[j] == params[0][j] && params[0][j] in params[0];
        ParsedKeysAreGood(codec, r.value, params[1..]);
      }
    }
  }

  /** Whatever parses has a proper address and proper keys. */
  lemma ParsedIsPrintable(codec: AmountCodec, text: string)
    ensures Parse(codec, text).Ok? ==> Printable(Parse(codec, text).value)
  {
    if SCHEME <= text {
      var body := text[|SCHEME|..];
      var i := Find(body, '?');
      if 0 < i {
        assert forall j :: 0 <= j < i ==> body[..i][j] == body[j];
        assert i == |body| ==> body[..i] == body;
        if i < |body| {
          ParsedKeysAreGood(codec, Empty(body[..i]), Split(body[i + 1..], '&'));
        }
      }
    }
  }

  lemma MangledIffAscii(s: string)
    ensures Mangled(s) == s <==> IsAscii(s)
  {
    AsciiIsItsOwnBytes(s);
  }

  lemma MangledUriIffAscii(u: Uri)
    ensures MangledUri(u) == u <==> AllAscii(u)
  {
    if u.labelText.Some? {
      MangledIffAscii(u.labelText.value);
    }
    if u.message.Some? {
      MangledIffAscii(u.message.value);
    }
    forall k | k in u.params ensures MangledUri(u).params[k] == u.params[k] <==> IsAscii(u.params[k]) {
      MangledIffAscii(u.params[k]);
    }
    assert MangledUri(u).params == u.params <==> forall k :: k in u.params ==> IsAscii(u.params[k]);
  }

  /**
   Parsing what was printed gives the URI back, in every parameter order, exactly when the
   address is non-empty without `?`, no key holds `&` or `=` or is a reserved name, and every
   text is ASCII.
   */
  lemma RoundTripIff(codec: AmountCodec, u: Uri, order: seq<string>)
    requires GoodAmount(codec, u.amount) && Enumerates(order, u.params.Keys)
    ensures Parse(codec, ToString(codec, u, order)) == Ok(u) <==> Printable(u) && AllAscii(u)
  {
    ParsedIsPrintable(codec, ToString(codec, u, order));
    if Printable(u) {
      ParseOfPrinted(codec, u, order);
      MangledUriIffAscii(u);
    }
  }

  // ---------------------------------------------------------------------------
  // Required parameters
  // ---------------------------------------------------------------------------

  /** The parameters of a URI with a proper address. */
  function ParamsOf(text: string): seq<string> {
    if |text| < |SCHEME| then []
    else
      var body := text[|SCHEME|..];
      var i := Find(body, '?');
      if i < |body| then Split(body[i + 1..], '&') else []
  }

  /** Why a parameter may be refused: its value does not decode, or it is an amount that is none. */
  predicate ParamOk(codec: AmountCodec, param: string) {
    param == []
    || (ValueOf(param).Ok?
        && (KeyOf(param) == "amount" ==>
              var a := codec.parse(ValueOf(param).value); a.Some? && !codec.nonPositive(a.value)))
  }

  lemma {:induction false} ParseParamsOkIff(codec: AmountCodec, u: Uri, params: seq<string>)
    ensures ParseParams(codec, u, params).Ok? <==> forall i :: 0 <= i < |params| ==> ParamOk(codec, params[i])
    decreases params
  {
    if params != [] {
      var r := ParseParam(codec, u, params[0]);
      assert r.Ok? <==> ParamOk(codec, params[0]);
      if r.Ok? {
        ParseParamsOkIff(codec, r.value, params[1..]);
        assert forall i :: 1 <= i < |params| ==> params[i] == params[1..][i - 1];
      }
    }
  }

  /** A URI parses exactly if it has the scheme, an address and no parameter refused for its own value. */
  lemma ParseOkIff(codec: AmountCodec, text: string)
    ensures Parse(codec, text).Ok? <==>
            SCHEME <= text && Find(text[|SCHEME|..], '?') > 0 && forall i :: 0 <= i < |ParamsOf(text)| ==> ParamOk(codec, ParamsOf(text)[i])
  {
    if SCHEME <= text {
      var body := text[|SCHEME|..];
      var i := Find(body, '?');
      if 0 < i < |body| {
        ParseParamsOkIff(codec, Empty(body[..i]), ParamsOf(text));
      }
    }
  }

  /** BIP 21: a parameter that a client must understand to use the URI. */
  predicate Required(param: string) {
    "req-" <= KeyOf(param)
  }

  /** No parameter of that name is understood, and yet it is stored like any optional one, whatever its name and value. */
  lemma RequiredIsStored(codec: AmountCodec, u: Uri, param: string)
    requires Required(param)
    ensures ParamOk(codec, param) <==> ValueOf(param).Ok?
    ensures ValueOf(param).Ok? ==> ParseParam(codec, u, param) == Ok(u.(params := u.params[KeyOf(param) := ValueOf(param).value]))
  {
    assert KeyOf(param)[0] == 'r';
    assert param != [];
  }

  lemma {:induction false} ParsedKeysStay(codec: AmountCodec, u: Uri, params: seq<string>, k: string)
    ensures var r := ParseParams(codec, u, params);
            r.Ok? && (k in u.params || exists i :: 0 <= i < |params| && Required(params[i]) && KeyOf(params[i]) == k) ==> k in r.value.params
    decreases params
  {
    if params != [] {
      var r := ParseParam(codec, u, params[0]);
      if Required(params[0]) {
        RequiredIsStored(codec, u, params[0]);
      }
      if r.Ok? {
        ParsedKeysStay(codec, r.value, params[1..], k);
        assert forall i :: 1 <= i < |params| ==> params[i] == params[1..][i - 1];
      }
    }
  }

  /** A URI that parses keeps the name of each of its required parameters; BIP 21 has it rejected. */
  lemma RequiredIsKept(codec: AmountCodec, text: string, i: nat)
    requires Parse(codec, text).Ok? && i < |ParamsOf(text)| && Required(ParamsOf(text)[i])
    ensures KeyOf(ParamsOf(text)[i]) in Parse(codec, text).value.params
  {
    var body := text[|SCHEME|..];
    ParsedKeysStay(codec, Empty(body[..Find(body, '?')]), ParamsOf(text), KeyOf(ParamsOf(text)[i]));
  }

  /** Such texts exist for every address and every required parameter that decodes. */
  lemma RequiredTextParses(codec: AmountCodec, address: string, param: string)
    requires GoodAddress(address) && Required(param) && '&' !in param && ValueOf(param).Ok?
    ensures Parse(codec, SCHEME + address + ("?" + param)) == Ok(Uri(address, None, None, None, map[KeyOf(param) := ValueOf(param).value]))
  {
    ParseHead(codec, address, [param]);
    assert Join([param], '&') == param;
    RequiredIsStored(codec, Empty(address), param);
  }

  lemma RequiredExample(codec: AmountCodec)
    ensures Parse(codec, SCHEME + "a" + ("?" + "req-x")) == Ok(Uri("a", None, None, None, map["req-x" := ""]))
  {
    var param := "req-x";
    FindIs(param, '=', 5);
    assert param[..5] == param && "req-" <= param;
    RequiredTextParses(codec, "a", param);
  }
}
