/**
 The OAuth 1.0a signature base string and header (agents/vault/vault.py:135-179), as
 RFC 5849 describes them, with the parsers that read them back. HMAC-SHA256 with
 base64 is one opaque function.
 */
module OAuth {
  import opened Prelude

  // --- Percent-encoding (RFC 5849 section 3.6) -----------------------------------

  predicate Unreserved(c: char) {
    'A' <= c <= 'Z' || 'a' <= c <= 'z' || '0' <= c <= '9' || c == '-' || c == '.' || c == '_' || c == '~'
  }

  type Byte = b: int | 0 <= b < 256

  function Utf8(c: char): seq<Byte> {
    var n := c as int;
    if n < 0x80 then [n]
    else if n < 0x800 then [0xC0 + n / 64, 0x80 + n % 64]
    else if n < 0x10000 then [0xE0 + n / 4096, 0x80 + n / 64 % 64, 0x80 + n % 64]
    else [0xF0 + n / 262144, 0x80 + n / 4096 % 64, 0x80 + n / 64 % 64, 0x80 + n % 64]
  }

  function HexDigit(d: int): char
    requires 0 <= d < 16
  {
    if d < 10 then (48 + d) as char else (55 + d) as char
  }

  function Pct(b: Byte): string { ['%', HexDigit(b / 16), HexDigit(b % 16)] }

  function PctAll(bytes: seq<Byte>): string {
    if bytes == [] then [] else Pct(bytes[0]) + PctAll(bytes[1..])
  }

  function EncodeChar(c: char): string {
    if Unreserved(c) then [c] else PctAll(Utf8(c))
  }

  function Percent(s: string): string {
    if s == [] then [] else EncodeChar(s[0]) + Percent(s[1..])
  }

  predicate Encoded(s: string) {
    forall i :: 0 <= i < |s| ==> Unreserved(s[i]) || s[i] == '%'
  }

  lemma {:induction false} PctAllEncoded(bytes: seq<Byte>)
    ensures Encoded(PctAll(bytes))
  {
    if bytes != [] { PctAllEncoded(bytes[1..]); }
  }

  /** Nothing but unreserved characters and '%' comes out. */
  lemma {:induction false} PercentEncoded(s: string)
    ensures Encoded(Percent(s))
  {
    if s != [] {
      PctAllEncoded(Utf8(s[0]));
      PercentEncoded(s[1..]);
    }
  }

  predicate UpperHex(c: char) { '0' <= c <= '9' || 'A' <= c <= 'F' }

  /** Letters, digits and - . _ ~ stay; every other character becomes bytes of the form %XX in
      upper-case hexadecimal, as section 3.6 of RFC 5849 asks. */
  lemma PercentIsExact(c: char)
    ensures if 'A' <= c <= 'Z' || 'a' <= c <= 'z' || '0' <= c <= '9' || c in "-._~" then Percent([c]) == [c]
            else |Percent([c])| == 3 * |Utf8(c)|
                 && forall i :: 0 <= i < |Utf8(c)| ==>
                      Percent([c])[3 * i] == '%' && UpperHex(Percent([c])[3 * i + 1]) && UpperHex(Percent([c])[3 * i + 2])
  {
    assert [c][1..] == [] && Percent([]) == [];
    assert EncodeChar(c) + [] == EncodeChar(c);
    assert Percent([c]) == EncodeChar(c);
    PctAllShape(Utf8(c));
  }

  lemma {:induction false} PctAllShape(bytes: seq<Byte>)
    ensures |PctAll(bytes)| == 3 * |bytes|
    ensures forall i :: 0 <= i < |bytes| ==>
              PctAll(bytes)[3 * i] == '%' && UpperHex(PctAll(bytes)[3 * i + 1]) && UpperHex(PctAll(bytes)[3 * i + 2])
  {
    if bytes != [] {
      PctAllShape(bytes[1..]);
      forall i | 0 <= i < |bytes|
        ensures PctAll(bytes)[3 * i] == '%' && UpperHex(PctAll(bytes)[3 * i + 1]) && UpperHex(PctAll(bytes)[3 * i + 2])
      {
        if i > 0 {
          var rest := PctAll(bytes[1..]);
          assert PctAll(bytes)[3 * i] == rest[3 * (i - 1)];
          assert PctAll(bytes)[3 * i + 1] == rest[3 * (i - 1) + 1] && PctAll(bytes)[3 * i + 2] == rest[3 * (i - 1) + 2];
        }
      }
    }
  }

  // --- Decoding ----------------------------------------------------------------------

  function HexValue(c: char): Option<int> {
    if '0' <= c <= '9' then Some(c as int - 48) else if 'A' <= c <= 'F' then Some(c as int - 55) else None
  }

  /** The byte written as %XX at the start of t. */
  function ReadByte(t: string): Option<int> {
    if |t| < 3 || t[0] != '%' || HexValue(t[1]).None? || HexValue(t[2]).None? then None
    else Some(HexValue(t[1]).value * 16 + HexValue(t[2]).value)
  }

  predicate IsScalar(n: int) { 0 <= n < 0xD800 || 0xE000 <= n < 0x110000 }

  /** The code point written in k continuation bytes after the bits in acc. */
  function ReadRest(t: string, acc: int, k: nat): Option<(int, string)> {
    if k == 0 then Some((acc, t))
    else
      var b := ReadByte(t);
      if b.None? || !(0x80 <= b.value < 0xC0) then None else ReadRest(t[3..], acc * 64 + b.value - 0x80, k - 1)
  }

  function ReadScalar(t: string): Option<(int, string)> {
    var b := ReadByte(t);
    if b.None? then None
    else if b.value < 0x80 then Some((b.value, t[3..]))
    else if 0xC0 <= b.value < 0xE0 then ReadRest(t[3..], b.value - 0xC0, 1)
    else if 0xE0 <= b.value < 0xF0 then ReadRest(t[3..], b.value - 0xE0, 2)
    else if 0xF0 <= b.value < 0xF8 then ReadRest(t[3..], b.value - 0xF0, 3)
    else None
  }

  function Decode(t: string): Option<string>
    decreases |t|
  {
    if t == [] then Some([])
    else if t[0] != '%' then
      (match Decode(t[1..]) case None => None case Some(s) => Some([t[0]] + s))
    else
      var r := ReadScalar(t);
      if r.None? || !IsScalar(r.value.0) || |r.value.1| >= |t| then None
      else (match Decode(r.value.1) case None => None case Some(s) => Some([r.value.0 as char] + s))
  }

  lemma ReadByteBack(b: Byte, rest: string)
    ensures ReadByte(Pct(b) + rest) == Some(b) && (Pct(b) + rest)[3..] == rest
  {
    var t := Pct(b) + rest;
    assert t[0] == '%' && t[1] == HexDigit(b / 16) && t[2] == HexDigit(b % 16);
  }

  lemma ReadRestStep(b: Byte, more: string, acc: int, k: nat)
    requires 0x80 <= b < 0xC0 && k > 0
    ensures ReadRest(Pct(b) + more, acc, k) == ReadRest(more, acc * 64 + b - 0x80, k - 1)
  {
    ReadByteBack(b, more);
  }

  lemma {:induction false} ReadRestBack(bytes: seq<Byte>, acc: int, rest: string)
    requires forall i :: 0 <= i < |bytes| ==> 0x80 <= bytes[i] < 0xC0
    ensures ReadRest(PctAll(bytes) + rest, acc, |bytes|) == Some((Shifted(acc, bytes), rest))
  {
    if bytes == [] {
      assert PctAll(bytes) + rest == rest;
    } else {
      var more := PctAll(bytes[1..]) + rest;
      assert PctAll(bytes) + rest == Pct(bytes[0]) + more;
      ReadRestBack(bytes[1..], acc * 64 + bytes[0] - 0x80, rest);
      ReadRestStep(bytes[0], more, acc, |bytes|);
    }
  }

  function Shifted(acc: int, bytes: seq<Byte>): int
    decreases |bytes|
  {
    if bytes == [] then acc else Shifted(acc * 64 + bytes[0] - 0x80, bytes[1..])
  }

  lemma ShiftedShort(acc: int, b: Byte, c: Byte, d: Byte)
    ensures Shifted(acc, [b]) == acc * 64 + b - 0x80
    ensures Shifted(acc, [b, c]) == (acc * 64 + b - 0x80) * 64 + c - 0x80
    ensures Shifted(acc, [b, c, d]) == ((acc * 64 + b - 0x80) * 64 + c - 0x80) * 64 + d - 0x80
  {
    var e := acc * 64 + b - 0x80;
    assert [b, c, d][1..] == [c, d] && [c, d][1..] == [d] && [b, c][1..] == [c];
    assert Shifted(e, [c]) == e * 64 + c - 0x80;
    assert Shifted(e * 64 + c - 0x80, [d]) == (e * 64 + c - 0x80) * 64 + d - 0x80;
    assert Shifted(e, [c, d]) == Shifted(e * 64 + c - 0x80, [d]);
  }

  /** The base-64 digits UTF-8 spreads a code point over. */
  lemma SixBitDigits(n: int)
    requires 0 <= n
    ensures n == n / 64 * 64 + n % 64
    ensures n == (n / 4096 * 64 + n / 64 % 64) * 64 + n % 64
    ensures n == ((n / 262144 * 64 + n / 4096 % 64) * 64 + n / 64 % 64) * 64 + n % 64
  {
    assert n / 64 / 64 == n / 4096;
    assert n / 4096 / 64 == n / 262144;
  }

  lemma ShiftedUtf8(c: char)
    ensures var n, u := c as int, Utf8(c);
            && (n < 0x80 ==> u[0] == n < 0x80)
            && (0x80 <= n < 0x800 ==> 0xC0 <= u[0] < 0xE0 && Shifted(u[0] - 0xC0, u[1..]) == n)
            && (0x800 <= n < 0x10000 ==> 0xE0 <= u[0] < 0xF0 && Shifted(u[0] - 0xE0, u[1..]) == n)
            && (0x10000 <= n ==> 0xF0 <= u[0] < 0xF8 && Shifted(u[0] - 0xF0, u[1..]) == n)
  {
    var u := Utf8(c);
    SixBitDigits(c as int);
    if |u| == 2 {
      assert u[1..] == [u[1]];
      ShiftedShort(u[0] - 0xC0, u[1], 0, 0);
    } else if |u| == 3 {
      assert u[1..] == [u[1], u[2]];
      ShiftedShort(u[0] - 0xE0, u[1], u[2], 0);
    } else if |u| == 4 {
      assert u[1..] == [u[1], u[2], u[3]];
      ShiftedShort(u[0] - 0xF0, u[1], u[2], u[3]);
    }
  }

  lemma ReadScalarBack(c: char, rest: string)
    ensures ReadScalar(PctAll(Utf8(c)) + rest) == Some((c as int, rest))
  {
    var u := Utf8(c);
    assert PctAll(u) + rest == Pct(u[0]) + (PctAll(u[1..]) + rest);
    ReadByteBack(u[0], PctAll(u[1..]) + rest);
    ShiftedUtf8(c);
    if |u| == 1 {
      assert PctAll(u[1..]) + rest == rest;
    } else if |u| == 2 {
      ReadRestBack(u[1..], u[0] - 0xC0, rest);
    } else if |u| == 3 {
      ReadRestBack(u[1..], u[0] - 0xE0, rest);
    } else {
      ReadRestBack(u[1..], u[0] - 0xF0, rest);
    }
  }

  /** Percent-encoding loses nothing, for all Unicode text. */
  lemma {:induction false} DecodePercent(s: string)
    ensures Decode(Percent(s)) == Some(s)
  {
    if s != [] {
      var c, rest := s[0], Percent(s[1..]);
      var t := EncodeChar(c) + rest;
      DecodePercent(s[1..]);
      assert s == [c] + s[1..];
      if Unreserved(c) {
        assert t[0] == c && t[1..] == rest;
      } else {
        ReadScalarBack(c, rest);
        assert PctAll(Utf8(c))[0] == '%';
      }
    }
  }

  // --- Joining and cutting -------------------------------------------------------------

  /** Cut at the last occurrence of c. */
  function CutLast(s: string, c: char): Option<(string, string)> {
    if s == [] then None
    else
      var n := |s| - 1;
      if s[n] == c then Some((s[..n], []))
      else match CutLast(s[..n], c) case None => None case Some(p) => Some((p.0, p.1 + [s[n]]))
  }

  lemma {:induction false} CutLastBack(a: string, c: char, b: string)
    requires c !in b
    ensures CutLast(a + [c] + b, c) == Some((a, b))
  {
    var s := a + [c] + b;
    if b == [] {
      assert s == a + [c];
      assert s[..|s| - 1] == a;
    } else {
      var n := |b| - 1;
      assert s[..|s| - 1] == a + [c] + b[..n];
      assert s[|s| - 1] == b[n] && b[n] in b;
      CutLastBack(a, c, b[..n]);
      assert b == b[..n] + [b[n]];
    }
  }

  lemma {:induction false} CutLastNone(s: string, c: char)
    requires c !in s
    ensures CutLast(s, c) == None
  {
    if s != [] {
      assert s[|s| - 1] in s;
      CutLastNone(s[..|s| - 1], c);
    }
  }

  lemma {:induction false} CutLastShorter(s: string, c: char)
    ensures CutLast(s, c).Some? ==> |CutLast(s, c).value.0| < |s|
  {
    if s != [] { CutLastShorter(s[..|s| - 1], c); }
  }

  /** `sep.join(parts)`, for a one-character separator. */
  function Join(parts: seq<string>, sep: char): string {
    if parts == [] then []
    else if |parts| == 1 then parts[0]
    else Join(parts[..|parts| - 1], sep) + [sep] + parts[|parts| - 1]
  }

  function Split(s: string, sep: char): seq<string>
    decreases |s|
  {
    CutLastShorter(s, sep);
    match CutLast(s, sep)
    case None => [s]
    case Some(p) => Split(p.0, sep) + [p.1]
  }

  lemma {:induction false} SplitJoin(parts: seq<string>, sep: char)
    requires parts != [] && forall i :: 0 <= i < |parts| ==> sep !in parts[i]
    ensures Split(Join(parts, sep), sep) == parts
  {
    var n := |parts| - 1;
    if n == 0 {
      CutLastNone(parts[0], sep);
    } else {
      CutLastBack(Join(parts[..n], sep), sep, parts[n]);
      SplitJoin(parts[..n], sep);
    }
  }

  // --- Requests ------------------------------------------------------------------------

  type Params = map<string, string>
  type Items = seq<(string, string)>

  /** `sorted(params.items())`: a dict's keys are distinct, so only keys are compared. */
  function SortedItems(params: Params): Items {
    var keys := SortedKeys(params.Keys);
    seq(|keys|, i requires 0 <= i < |keys| => (keys[i], params[keys[i]]))
  }

  lemma ItemAt(params: Params, i: nat)
    requires i < |SortedKeys(params.Keys)|
    ensures |SortedItems(params)| == |SortedKeys(params.Keys)|
    ensures var k := SortedKeys(params.Keys)[i]; k in params && SortedItems(params)[i] == (k, params[k])
  {
    assert SortedKeys(params.Keys)[i] in SortedKeys(params.Keys);
  }

  lemma ItemsHold(params: Params, k: string, v: string)
    ensures (k, v) in SortedItems(params) <==> k in params && params[k] == v
  {
    var keys, items := SortedKeys(params.Keys), SortedItems(params);
    if k in params && params[k] == v {
      assert k in keys;
      var i :| 0 <= i < |keys| && keys[i] == k;
      ItemAt(params, i);
    }
    if (k, v) in items {
      var i :| 0 <= i < |items| && items[i] == (k, v);
      ItemAt(params, i);
    }
  }

  lemma SortedItemsDetermine(a: Params, b: Params)
    requires SortedItems(a) == SortedItems(b)
    ensures a == b
  {
    forall k | k in a || k in b ensures k in a && k in b && a[k] == b[k] {
      if k in a { ItemsHold(a, k, a[k]); ItemsHold(b, k, a[k]); }
      if k in b { ItemsHold(a, k, b[k]); ItemsHold(b, k, b[k]); }
    }
  }

  datatype Creds = Creds(consumerKey: string, consumerSecret: string, tokenId: string, tokenSecret: string, accountId: string)

  function OauthParams(creds: Creds, nonce: string, timestamp: string): Params {
    map["oauth_consumer_key" := creds.consumerKey,
        "oauth_token" := creds.tokenId,
        "oauth_signature_method" := "HMAC-SHA256",
        "oauth_timestamp" := timestamp,
        "oauth_nonce" := nonce,
        "oauth_version" := "1.0"]
  }

  /** k=v with both sides encoded. */
  function Pair(item: (string, string)): string { Percent(item.0) + ['='] + Percent(item.1) }

  function Normalized(items: Items): string {
    Join(seq(|items|, i requires 0 <= i < |items| => Pair(items[i])), '&')
  }

  /** RFC 5849 section 3.4.1.1, from the merged parameters. */
  function BaseString(httpMethod: string, url: string, signed: Params): string {
    Upper(httpMethod) + ['&'] + Percent(url) + ['&'] + Percent(Normalized(SortedItems(signed)))
  }

  function ParsePair(s: string): Option<(string, string)> {
    match CutLast(s, '=')
    case None => None
    case Some(p) =>
      var k, v := Decode(p.0), Decode(p.1);
      if k.Some? && v.Some? then Some((k.value, v.value)) else None
  }

  function ParseAll(parts: seq<string>): Option<Items> {
    if parts == [] then Some([])
    else
      var n := |parts| - 1;
      var before, last := ParseAll(parts[..n]), ParsePair(parts[n]);
      if before.Some? && last.Some? then Some(before.value + [last.value]) else None
  }

  datatype Request = Request(httpMethod: string, url: string, items: Items)

  function ParseBaseString(s: string): Option<Request> {
    match CutLast(s, '&')
    case None => None
    case Some(outer) =>
      match CutLast(outer.0, '&')
      case None => None
      case Some(inner) =>
        var url, normalized := Decode(inner.1), Decode(outer.1);
        if url.None? || normalized.None? then None
        else
          var items := ParseAll(Split(normalized.value, '&'));
          if items.None? then None else Some(Request(inner.0, url.value, items.value))
  }

  lemma CutEncodedPair(x: string, y: string)
    requires Encoded(x) && Encoded(y)
    ensures CutLast(x + ['='] + y, '=') == Some((x, y))
    ensures '&' !in x + ['='] + y
  {
    CutLastBack(x, '=', y);
  }

  lemma ParsePairBack(item: (string, string))
    ensures ParsePair(Pair(item)) == Some(item) && '&' !in Pair(item)
  {
    PercentEncoded(item.0);
    PercentEncoded(item.1);
    DecodePercent(item.0);
    DecodePercent(item.1);
    CutEncodedPair(Percent(item.0), Percent(item.1));
  }

  lemma {:induction false} ParseAllBack(items: Items, parts: seq<string>)
    requires |parts| == |items| && forall i :: 0 <= i < |items| ==> ParsePair(parts[i]) == Some(items[i])
    ensures ParseAll(parts) == Some(items)
  {
    if items != [] {
      var n := |items| - 1;
      ParseAllBack(items[..n], parts[..n]);
      assert items == items[..n] + [items[n]];
    }
  }

  lemma NormalizedParsesBack(items: Items)
    requires items != []
    ensures ParseAll(Split(Normalized(items), '&')) == Some(items)
  {
    var parts := seq(|items|, i requires 0 <= i < |items| => Pair(items[i]));
    forall i | 0 <= i < |parts| ensures '&' !in parts[i] && ParsePair(parts[i]) == Some(items[i]) { ParsePairBack(items[i]); }
    SplitJoin(parts, '&');
    ParseAllBack(items, parts);
  }

  lemma ThreeParts(a: string, x: string, y: string)
    requires Encoded(x) && Encoded(y)
    ensures CutLast(a + ['&'] + x + ['&'] + y, '&') == Some((a + ['&'] + x, y))
    ensures CutLast(a + ['&'] + x, '&') == Some((a, x))
  {
    CutLastBack(a + ['&'] + x, '&', y);
    CutLastBack(a, '&', x);
  }

  /** The upper-cased method, the URL and the merged parameters are all there to be read
      back, even from a method that itself contains '&'. */
  lemma BaseStringParsesBack(httpMethod: string, url: string, signed: Params)
    requires signed != map[]
    ensures ParseBaseString(BaseString(httpMethod, url, signed))
            == Some(Request(Upper(httpMethod), url, SortedItems(signed)))
  {
    var items := SortedItems(signed);
    PercentEncoded(url);
    PercentEncoded(Normalized(items));
    ThreeParts(Upper(httpMethod), Percent(url), Percent(Normalized(items)));
    DecodePercent(url);
    DecodePercent(Normalized(items));
    var k :| k in signed;
    assert k in SortedKeys(signed.Keys);
    NormalizedParsesBack(items);
  }

  /** Distinct requests never share a base string. */
  lemma BaseStringIsUnambiguous(m1: string, u1: string, p1: Params, m2: string, u2: string, p2: Params)
    requires p1 != map[] && p2 != map[]
    requires BaseString(m1, u1, p1) == BaseString(m2, u2, p2)
    ensures Upper(m1) == Upper(m2) && u1 == u2 && p1 == p2
  {
    BaseStringParsesBack(m1, u1, p1);
    BaseStringParsesBack(m2, u2, p2);
    SortedItemsDetermine(p1, p2);
  }

  // --- The header (RFC 5849 section 3.5.1) ---------------------------------------------

  function SigningKey(creds: Creds): string {
    Percent(creds.consumerSecret) + ['&'] + Percent(creds.tokenSecret)
  }

  /** Cut and decoded, a key reads as its two secrets. */
  function ParseSigningKey(key: string): Option<(string, string)> {
    match CutLast(key, '&')
    case None => None
    case Some(p) =>
      var a, b := Decode(p.0), Decode(p.1);
      if a.Some? && b.Some? then Some((a.value, b.value)) else None
  }

  /** The consumer secret comes first, the token secret second. */
  lemma SigningKeyReadsBack(creds: Creds)
    ensures ParseSigningKey(SigningKey(creds)) == Some((creds.consumerSecret, creds.tokenSecret))
  {
    PercentEncoded(creds.tokenSecret);
    CutLastBack(Percent(creds.consumerSecret), '&', Percent(creds.tokenSecret));
    DecodePercent(creds.consumerSecret);
    DecodePercent(creds.tokenSecret);
  }

  /** The key tells the two secrets apart. */
  lemma SigningKeyIsUnambiguous(a: Creds, b: Creds)
    requires SigningKey(a) == SigningKey(b)
    ensures a.consumerSecret == b.consumerSecret && a.tokenSecret == b.tokenSecret
  {
    SigningKeyReadsBack(a);
    SigningKeyReadsBack(b);
  }

  function Field(item: (string, string)): string {
    Percent(item.0) + ['='] + ['"'] + Percent(item.1) + ['"']
  }

  function HeaderParts(items: Items): seq<string> {
    seq(|items|, i requires 0 <= i < |items| => if i == 0 then Field(items[i]) else [' '] + Field(items[i]))
  }

  const SCHEME: string := "OAuth "

  /** "OAuth " and the fields joined by ", ", the realm first. */
  function HeaderOf(realm: string, fields: Items): string {
    SCHEME + Join(HeaderParts([("realm", realm)] + fields), ',')
  }

  function AuthorizationHeader(sign: (string, string) -> string, creds: Creds, httpMethod: string, url: string,
                               query: Option<Params>, nonce: string, timestamp: string): string {
    var oauth := OauthParams(creds, nonce, timestamp);
    var signed := (if query.Some? then query.value else map[]) + oauth;
    var signature := sign(SigningKey(creds), BaseString(httpMethod, url, signed));
    HeaderOf(Upper(creds.accountId), SortedItems(oauth["oauth_signature" := signature]))
  }

  function ParseField(s: string): Option<(string, string)> {
    var t := if s != [] && s[0] == ' ' then s[1..] else s;
    match CutLast(t, '=')
    case None => None
    case Some(p) =>
      if |p.1| < 2 || p.1[0] != '"' || p.1[|p.1| - 1] != '"' then None
      else
        var k, v := Decode(p.0), Decode(p.1[1..|p.1| - 1]);
        if k.Some? && v.Some? then Some((k.value, v.value)) else None
  }

  function ParseFields(parts: seq<string>): Option<Items> {
    if parts == [] then Some([])
    else
      var n := |parts| - 1;
      var before, last := ParseFields(parts[..n]), ParseField(parts[n]);
      if before.Some? && last.Some? then Some(before.value + [last.value]) else None
  }

  function ParseHeader(h: string): Option<Items> {
    if |h| < 6 || h[..6] != "OAuth " then None else ParseFields(Split(h[6..], ','))
  }

  lemma CutEncodedField(x: string, y: string)
    requires Encoded(x) && Encoded(y)
    ensures var f := x + ['='] + ['"'] + y + ['"'];
            && CutLast(f, '=') == Some((x, ['"'] + y + ['"']))
            && ',' !in f && f[0] != ' '
  {
    var quoted := ['"'] + y + ['"'];
    assert x + ['='] + ['"'] + y + ['"'] == x + ['='] + quoted;
    CutLastBack(x, '=', quoted);
  }

  lemma ParseFieldBack(item: (string, string))
    ensures ParseField(Field(item)) == Some(item) && ParseField([' '] + Field(item)) == Some(item)
    ensures ',' !in Field(item)
  {
    var k, v, f := Percent(item.0), Percent(item.1), Field(item);
    PercentEncoded(item.0);
    PercentEncoded(item.1);
    CutEncodedField(k, v);
    assert (['"'] + v + ['"'])[1..|v| + 1] == v;
    DecodePercent(item.0);
    DecodePercent(item.1);
    assert ([' '] + f)[1..] == f;
  }

  lemma {:induction false} ParseFieldsBack(items: Items, parts: seq<string>)
    requires |parts| == |items| && forall i :: 0 <= i < |items| ==> ParseField(parts[i]) == Some(items[i])
    ensures ParseFields(parts) == Some(items)
  {
    if items != [] {
      var n := |items| - 1;
      ParseFieldsBack(items[..n], parts[..n]);
      assert items == items[..n] + [items[n]];
    }
  }

  /** The header splits back into its realm and its fields. */
  lemma HeaderParsesBack(realm: string, fields: Items)
    ensures ParseHeader(HeaderOf(realm, fields)) == Some([("realm", realm)] + fields)
  {
    var items := [("realm", realm)] + fields;
    var parts := HeaderParts(items);
    forall i | 0 <= i < |parts| ensures ',' !in parts[i] && ParseField(parts[i]) == Some(items[i]) { ParseFieldBack(items[i]); }
    SplitJoin(parts, ',');
    assert HeaderOf(realm, fields)[6..] == Join(parts, ',');
    ParseFieldsBack(items, parts);
  }

  /** What a server can read off the header: the realm, the caller's own credentials and
      the signature over exactly this request. */
  lemma HeaderCarriesTheRequest(sign: (string, string) -> string, creds: Creds, httpMethod: string, url: string,
                                query: Option<Params>, nonce: string, timestamp: string)
    ensures var signed := (if query.Some? then query.value else map[]) + OauthParams(creds, nonce, timestamp);
            var base := BaseString(httpMethod, url, signed);
            && ParseHeader(AuthorizationHeader(sign, creds, httpMethod, url, query, nonce, timestamp))
                 == Some([("realm", Upper(creds.accountId))]
                         + SortedItems(OauthParams(creds, nonce, timestamp)["oauth_signature" := sign(SigningKey(creds), base)]))
            && ParseBaseString(base) == Some(Request(Upper(httpMethod), url, SortedItems(signed)))
  {
    var oauth := OauthParams(creds, nonce, timestamp);
    var signed := (if query.Some? then query.value else map[]) + oauth;
    var signature := sign(SigningKey(creds), BaseString(httpMethod, url, signed));
    HeaderParsesBack(Upper(creds.accountId), SortedItems(oauth["oauth_signature" := signature]));
    assert "oauth_version" in signed;
    BaseStringParsesBack(httpMethod, url, signed);
  }

  lemma KeptItem(params: Params, name: string, added: string, k: string)
    requires k in params && k != name
    ensures (k, params[k]) in SortedItems(params[name := added])
  {
    ItemsHold(params[name := added], k, params[k]);
  }

  lemma OauthValues(creds: Creds, nonce: string, timestamp: string)
    ensures var p := OauthParams(creds, nonce, timestamp);
            && "oauth_consumer_key" in p && p["oauth_consumer_key"] == creds.consumerKey
            && "oauth_token" in p && p["oauth_token"] == creds.tokenId
            && "oauth_nonce" in p && p["oauth_nonce"] == nonce
            && "oauth_timestamp" in p && p["oauth_timestamp"] == timestamp
            && "oauth_signature" !in p
  {
  }

  lemma OauthConstants(creds: Creds, nonce: string, timestamp: string)
    ensures var p := OauthParams(creds, nonce, timestamp);
            && "oauth_signature_method" in p && p["oauth_signature_method"] == "HMAC-SHA256"
            && "oauth_version" in p && p["oauth_version"] == "1.0"
  {
  }

  /** The fields a server reads, out of the OAuth parameters and a signature. */
  predicate NamesTheCaller(items: Items, creds: Creds, nonce: string, timestamp: string) {
    && items != [] && items[0] == ("realm", Upper(creds.accountId))
    && ("oauth_consumer_key", creds.consumerKey) in items && ("oauth_token", creds.tokenId) in items
    && ("oauth_nonce", nonce) in items && ("oauth_timestamp", timestamp) in items
  }

  predicate NamesTheMethod(items: Items, signature: string) {
    && ("oauth_signature_method", "HMAC-SHA256") in items && ("oauth_version", "1.0") in items
    && ("oauth_signature", signature) in items
  }

  lemma HeaderItems(creds: Creds, nonce: string, timestamp: string, signature: string)
    ensures NamesTheCaller([("realm", Upper(creds.accountId))]
                           + SortedItems(OauthParams(creds, nonce, timestamp)["oauth_signature" := signature]), creds, nonce, timestamp)
  {
    var oauth := OauthParams(creds, nonce, timestamp);
    OauthValues(creds, nonce, timestamp);
    KeptItem(oauth, "oauth_signature", signature, "oauth_consumer_key");
    KeptItem(oauth, "oauth_signature", signature, "oauth_token");
    KeptItem(oauth, "oauth_signature", signature, "oauth_nonce");
    KeptItem(oauth, "oauth_signature", signature, "oauth_timestamp");
  }

  lemma HeaderConstants(creds: Creds, nonce: string, timestamp: string, signature: string)
    ensures NamesTheMethod([("realm", Upper(creds.accountId))]
                           + SortedItems(OauthParams(creds, nonce, timestamp)["oauth_signature" := signature]), signature)
  {
    var oauth := OauthParams(creds, nonce, timestamp);
    OauthConstants(creds, nonce, timestamp);
    KeptItem(oauth, "oauth_signature", signature, "oauth_signature_method");
    KeptItem(oauth, "oauth_signature", signature, "oauth_version");
    ItemsHold(oauth["oauth_signature" := signature], "oauth_signature", signature);
  }

  /** The server can read off the header who calls and when, by which method it is signed, and a
      signature made with a key that reads as the caller's consumer secret and then the token
      secret, over a base string that reads as this very request. */
  lemma HeaderNamesTheCaller(sign: (string, string) -> string, creds: Creds, httpMethod: string, url: string,
                             query: Option<Params>, nonce: string, timestamp: string)
    returns (items: Items, key: string, base: string)
    ensures ParseHeader(AuthorizationHeader(sign, creds, httpMethod, url, query, nonce, timestamp)) == Some(items)
    ensures NamesTheCaller(items, creds, nonce, timestamp) && NamesTheMethod(items, sign(key, base))
    ensures ParseSigningKey(key) == Some((creds.consumerSecret, creds.tokenSecret))
    ensures ParseBaseString(base).Some? && ParseBaseString(base).value.httpMethod == Upper(httpMethod)
            && ParseBaseString(base).value.url == url
  {
    var oauth := OauthParams(creds, nonce, timestamp);
    key := SigningKey(creds);
    base := BaseString(httpMethod, url, (if query.Some? then query.value else map[]) + oauth);
    items := [("realm", Upper(creds.accountId))] + SortedItems(oauth["oauth_signature" := sign(key, base)]);
    HeaderCarriesTheRequest(sign, creds, httpMethod, url, query, nonce, timestamp);
    HeaderItems(creds, nonce, timestamp, sign(key, base));
    HeaderConstants(creds, nonce, timestamp, sign(key, base));
    SigningKeyReadsBack(creds);
  }

  /** The signature covers every query parameter, except one that bears an OAuth name:
      there the OAuth value is signed. */
  lemma SignatureCoversTheQuery(creds: Creds, httpMethod: string, url: string, query: Params,
                                nonce: string, timestamp: string, k: string, v: string)
    ensures var oauth := OauthParams(creds, nonce, timestamp);
            var parsed := ParseBaseString(BaseString(httpMethod, url, query + oauth));
            parsed.Some? && ((k, v) in parsed.value.items <==>
              if k in oauth then oauth[k] == v else k in query && query[k] == v)
  {
    var oauth := OauthParams(creds, nonce, timestamp);
    assert "oauth_version" in query + oauth;
    BaseStringParsesBack(httpMethod, url, query + oauth);
    ItemsHold(query + oauth, k, v);
  }

  // --- The order of parameters (RFC 5849 section 3.4.1.3.2) ------------------------------

  /** The keys first differ at an unreserved character in a and a reserved one in b. */
  predicate OutOfOrder(a: string, b: string) {
    a != [] && b != [] &&
    if a[0] == b[0] then OutOfOrder(a[1..], b[1..]) else Unreserved(a[0]) && !Unreserved(b[0])
  }

  lemma {:induction false} LessPrefix(x: string, a: string, b: string)
    ensures Less(x + a, x + b) <==> Less(a, b)
  {
    if x == [] {
      assert x + a == a && x + b == b;
    } else {
      assert (x + a)[1..] == x[1..] + a && (x + b)[1..] == x[1..] + b;
      LessPrefix(x[1..], a, b);
    }
  }

  /** u stops being a prefix of v at a smaller byte. */
  predicate BytesLess(u: seq<Byte>, v: seq<Byte>) {
    u != [] && v != [] && (u[0] < v[0] || (u[0] == v[0] && BytesLess(u[1..], v[1..])))
  }

  lemma {:induction false} BytesLessAt(u: seq<Byte>, v: seq<Byte>, i: nat)
    requires i < |u| && i < |v| && u[i] < v[i] && forall k :: 0 <= k < i ==> u[k] == v[k]
    ensures BytesLess(u, v)
  {
    if i > 0 { BytesLessAt(u[1..], v[1..], i - 1); }
  }

  lemma DigitsKeepOrder(n: int, m: int)
    requires 0 <= n < m
    ensures n / 64 < m / 64 || (n / 64 == m / 64 && n % 64 < m % 64)
    ensures n / 4096 < m / 4096 || (n / 4096 == m / 4096 &&
              (n / 64 % 64 < m / 64 % 64 || (n / 64 % 64 == m / 64 % 64 && n % 64 < m % 64)))
    ensures n / 262144 < m / 262144 || (n / 262144 == m / 262144 &&
              (n / 4096 % 64 < m / 4096 % 64 || (n / 4096 % 64 == m / 4096 % 64 &&
                (n / 64 % 64 < m / 64 % 64 || (n / 64 % 64 == m / 64 % 64 && n % 64 < m % 64)))))
  {
    SixBitDigits(n);
    SixBitDigits(m);
  }

  lemma Utf8KeepsOrder(c: char, d: char)
    requires c < d
    ensures BytesLess(Utf8(c), Utf8(d))
  {
    var u, v := Utf8(c), Utf8(d);
    if |u| < |v| {
      ShiftedUtf8(c);
      ShiftedUtf8(d);
      BytesLessAt(u, v, 0);
    } else {
      DigitsKeepOrder(c as int, d as int);
      var i := if u[0] < v[0] then 0 else if u[1] < v[1] then 1 else if u[2] < v[2] then 2 else 3;
      BytesLessAt(u, v, i);
    }
  }

  lemma PctKeepsOrder(b: Byte, d: Byte, x: string, y: string)
    requires b < d
    ensures Less(Pct(b) + x, Pct(d) + y)
  {
    var s, t := Pct(b) + x, Pct(d) + y;
    assert s[1..][1..] == s[2..] && t[1..][1..] == t[2..];
    assert s[1] == HexDigit(b / 16) && t[1] == HexDigit(d / 16);
    assert s[2] == HexDigit(b % 16) && t[2] == HexDigit(d % 16);
  }

  lemma {:induction false} PctAllKeepsOrder(u: seq<Byte>, v: seq<Byte>, x: string, y: string)
    requires BytesLess(u, v)
    ensures Less(PctAll(u) + x, PctAll(v) + y)
  {
    var a, b := PctAll(u[1..]) + x, PctAll(v[1..]) + y;
    assert PctAll(u) + x == Pct(u[0]) + a && PctAll(v) + y == Pct(v[0]) + b;
    if u[0] < v[0] {
      PctKeepsOrder(u[0], v[0], a, b);
    } else {
      PctAllKeepsOrder(u[1..], v[1..], x, y);
      LessPrefix(Pct(u[0]), a, b);
    }
  }

  /** Sorting raw keys, as the source does, puts two keys in the order the RFC asks for
      (that of their encoded forms) exactly when they are not out of order in this sense. */
  lemma {:induction false} EncodedOrderIff(a: string, b: string)
    requires Less(a, b)
    ensures Less(Percent(a), Percent(b)) <==> !OutOfOrder(a, b)
  {
    if a == [] {
      assert EncodeChar(b[0]) != [];
    } else if a[0] == b[0] {
      LessPrefix(EncodeChar(a[0]), Percent(a[1..]), Percent(b[1..]));
      EncodedOrderIff(a[1..], b[1..]);
    } else {
      var x, y := Percent(a[1..]), Percent(b[1..]);
      var s, t := EncodeChar(a[0]) + x, EncodeChar(b[0]) + y;
      assert s[0] == if Unreserved(a[0]) then a[0] else '%';
      assert t[0] == if Unreserved(b[0]) then b[0] else '%';
      if !Unreserved(a[0]) && !Unreserved(b[0]) {
        Utf8KeepsOrder(a[0], b[0]);
        PctAllKeepsOrder(Utf8(a[0]), Utf8(b[0]), x, y);
      }
    }
  }

  /** The encoded keys are in ascending byte order. */
  ghost predicate RfcOrder(keys: seq<string>) {
    forall i, j :: 0 <= i < j < |keys| ==> Less(Percent(keys[i]), Percent(keys[j]))
  }

  ghost predicate NoneOutOfOrder(signed: Params) {
    forall a, b :: a in signed && b in signed && Less(a, b) ==> !OutOfOrder(a, b)
  }

  /** The base string lists its parameters in the RFC's order exactly when no two of the
      keys first differ at an unreserved character before a reserved one. */
  lemma RfcOrderIff(signed: Params)
    ensures RfcOrder(SortedKeys(signed.Keys)) <==> NoneOutOfOrder(signed)
  {
    var keys := SortedKeys(signed.Keys);
    if RfcOrder(keys) {
      forall a, b | a in signed && b in signed && Less(a, b) ensures !OutOfOrder(a, b) {
        OrderedPair(keys, a, b);
        EncodedOrderIff(a, b);
      }
    }
    if NoneOutOfOrder(signed) {
      forall i, j | 0 <= i < j < |keys| ensures Less(Percent(keys[i]), Percent(keys[j])) {
        assert keys[i] in keys && keys[j] in keys;
        EncodedOrderIff(keys[i], keys[j]);
      }
    }
  }

  lemma OrderedPair(keys: seq<string>, a: string, b: string)
    requires StrictlySorted(keys) && RfcOrder(keys) && a in keys && b in keys && Less(a, b)
    ensures Less(Percent(a), Percent(b))
  {
    var i :| 0 <= i < |keys| && keys[i] == a;
    var j :| 0 <= j < |keys| && keys[j] == b;
    LessTotal(a, b);
    LessTotal(a, a);
    assert i < j;
  }

  lemma SwappedByEncoding()
    ensures Less("aB", "a{") && OutOfOrder("aB", "a{")
  {
    assert "aB"[1..] == "B" && "a{"[1..] == "{";
  }

  /** It can differ: whatever else is signed, a query with the keys "aB" and "a{" is not
      listed in the RFC's order. */
  lemma RfcOrderCanFail(creds: Creds, nonce: string, timestamp: string, query: Params)
    requires "aB" in query && "a{" in query
    ensures !RfcOrder(SortedKeys((query + OauthParams(creds, nonce, timestamp)).Keys))
  {
    SwappedByEncoding();
    var signed := query + OauthParams(creds, nonce, timestamp);
    assert "aB" in signed && "a{" in signed;
    RfcOrderIff(signed);
  }
}
