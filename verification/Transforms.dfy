/**
  `Transform`: an action, a scheme and a text.  The five schemes are base64, base64url and base32
  (module Codecs), hex (RFC 4648, section 8) and query escaping (RFC 3986, sections 2.1 and 2.3,
  with a space written as '+').
*/
module Transforms {
  import opened Wrappers
  import opened Codecs
  import Bits
  import Rfc = Rfc4648

  /** A Go string: every character is a byte. */
  type ByteString = s: string | AllBytes(s)

  predicate AllBytes(s: string) { forall i | 0 <= i < |s| :: s[i] as int < 256 }

  function ToBytes(s: ByteString): (b: seq<byte>)
    ensures |b| == |s| && forall i | 0 <= i < |s| :: b[i] == s[i] as int
  {
    seq(|s|, i requires 0 <= i < |s| => s[i] as int)
  }

  function FromBytes(b: seq<byte>): (s: ByteString)
    ensures |s| == |b| && forall i | 0 <= i < |b| :: s[i] as int == b[i]
  {
    seq(|b|, i requires 0 <= i < |b| => b[i] as char)
  }

  lemma {:induction false} FromToBytes(s: ByteString)
    ensures FromBytes(ToBytes(s)) == s
  {
  }

  // ---- Hex ----

  function HexDigit(v: nat, upper: bool): (c: char)
    requires v < 16
  {
    if v < 10 then ('0' as int + v) as char else ((if upper then 'A' else 'a') as int + v - 10) as char
  }

  function HexValue(c: char): (v: Option<nat>)
    ensures v.Some? ==> v.value < 16
  {
    if '0' <= c <= '9' then Some(c as int - '0' as int)
    else if 'a' <= c <= 'f' then Some(c as int - 'a' as int + 10)
    else if 'A' <= c <= 'F' then Some(c as int - 'A' as int + 10)
    else None
  }

  function HexPair(x: byte, upper: bool): (s: string)
    ensures |s| == 2
  {
    [HexDigit(x / 16, upper), HexDigit(x % 16, upper)]
  }

  function ByteOfPair(hi: char, lo: char): Option<byte> {
    match (HexValue(hi), HexValue(lo))
    case (Some(h), Some(l)) => Some(16 * h + l)
    case _ => None
  }

  function LowerChar(c: char): char { if 'A' <= c <= 'Z' then (c as int + 32) as char else c }

  function Lower(s: string): (t: string)
    ensures |t| == |s|
  {
    seq(|s|, i requires 0 <= i < |s| => LowerChar(s[i]))
  }

  lemma {:induction false} HexInverse(v: nat, upper: bool, c: char)
    ensures v < 16 ==> HexValue(HexDigit(v, upper)) == Some(v) && HexDigit(v, upper) as int < 128
    ensures HexValue(c).Some? ==> HexDigit(HexValue(c).value, false) == LowerChar(c)
  {
  }

  lemma {:induction false} Halves(h: nat, l: nat)
    requires l < 16
    ensures (16 * h + l) / 16 == h && (16 * h + l) % 16 == l
  {
  }

  lemma {:induction false} PairOfByte(x: byte, upper: bool)
    ensures ByteOfPair(HexPair(x, upper)[0], HexPair(x, upper)[1]) == Some(x)
    ensures HexPair(x, upper)[0] as int < 128 && HexPair(x, upper)[1] as int < 128
  {
    HexInverse(x / 16, upper, '0');
    HexInverse(x % 16, upper, '0');
  }

  lemma {:induction false} ByteOfDigits(hi: char, lo: char)
    ensures ByteOfPair(hi, lo).Some? ==> HexPair(ByteOfPair(hi, lo).value, false) == [LowerChar(hi), LowerChar(lo)]
  {
    if ByteOfPair(hi, lo).Some? {
      HexInverse(0, false, hi);
      HexInverse(0, false, lo);
      Halves(HexValue(hi).value, HexValue(lo).value);
    }
  }

  function EncodeHex(b: seq<byte>): (s: string)
    ensures |s| == 2 * |b|
  {
    if b == [] then [] else HexPair(b[0], false) + EncodeHex(b[1..])
  }

  function DecodeHex(s: string): Option<seq<byte>> {
    if s == [] then Some([])
    else if |s| == 1 then None
    else match (ByteOfPair(s[0], s[1]), DecodeHex(s[2..]))
      case (Some(x), Some(rest)) => Some([x] + rest)
      case _ => None
  }

  lemma {:induction false} HexRoundTrip(b: seq<byte>)
    ensures DecodeHex(EncodeHex(b)) == Some(b)
    ensures AllBytes(EncodeHex(b))
  {
    if b != [] {
      PairOfByte(b[0], false);
      HexRoundTrip(b[1..]);
      assert EncodeHex(b)[2..] == EncodeHex(b[1..]) && [b[0]] + b[1..] == b;
    }
  }

  /** A text that decodes is, up to the case of its digits, the encoding of what it decodes to. */
  lemma {:induction false} HexCanonical(s: string)
    ensures DecodeHex(s).Some? ==> EncodeHex(DecodeHex(s).value) == Lower(s)
  {
    if |s| >= 2 && DecodeHex(s).Some? {
      ByteOfDigits(s[0], s[1]);
      HexCanonical(s[2..]);
      assert Lower(s) == [LowerChar(s[0]), LowerChar(s[1])] + Lower(s[2..]);
      assert DecodeHex(s).value[1..] == DecodeHex(s[2..]).value;
    }
  }

  ghost predicate AllHex(s: string) { forall i | 0 <= i < |s| :: HexValue(s[i]).Some? }

  lemma {:induction false} HexDecodableIff(s: string)
    ensures DecodeHex(s).Some? <==> |s| % 2 == 0 && AllHex(s)
  {
    if |s| >= 2 {
      HexDecodableIff(s[2..]);
      assert AllHex(s) <==> HexValue(s[0]).Some? && HexValue(s[1]).Some? && AllHex(s[2..]) by {
        assert forall i | 2 <= i < |s| :: s[i] == s[2..][i - 2];
      }
    }
  }

  // ---- Query escaping ----

  predicate Unreserved(c: char) {
    'A' <= c <= 'Z' || 'a' <= c <= 'z' || '0' <= c <= '9' || c in {'-', '_', '.', '~'}
  }

  function EscapeByte(x: byte): (s: string)
    ensures 1 <= |s| <= 3
  {
    if Unreserved(x as char) then [x as char]
    else if x as char == ' ' then "+"
    else "%" + HexPair(x, true)
  }

  function QueryEscape(b: seq<byte>): string {
    if b == [] then [] else EscapeByte(b[0]) + QueryEscape(b[1..])
  }

  function QueryUnescape(s: ByteString): Option<seq<byte>> {
    if s == [] then Some([])
    else if s[0] == '%' then
      if |s| < 3 then None
      else match (ByteOfPair(s[1], s[2]), QueryUnescape(s[3..]))
        case (Some(x), Some(rest)) => Some([x] + rest)
        case _ => None
    else match QueryUnescape(s[1..])
      case Some(rest) => Some([if s[0] == '+' then ' ' as int else s[0] as int] + rest)
      case None => None
  }

  /** What may appear in an escaped text. */
  predicate QuerySafe(c: char) { Unreserved(c) || c in {'+', '%'} }

  lemma {:induction false} EscapedByte(x: byte, rest: ByteString)
    ensures forall c | c in EscapeByte(x) :: QuerySafe(c)
    ensures AllBytes(EscapeByte(x) + rest)
    ensures QueryUnescape(EscapeByte(x) + rest) ==
            match QueryUnescape(rest) case Some(b) => Some([x] + b) case None => None
  {
    var e := EscapeByte(x);
    PairOfByte(x, true);
    assert (e + rest)[|e|..] == rest;
  }

  /** Escaping can be undone, for every byte string, and leaves no character that is special in a query. */
  lemma {:induction false} EscapeRoundTrip(b: seq<byte>)
    ensures AllBytes(QueryEscape(b)) && QueryUnescape(QueryEscape(b)) == Some(b)
    ensures forall c | c in QueryEscape(b) :: QuerySafe(c)
  {
    if b != [] {
      EscapeRoundTrip(b[1..]);
      EscapedByte(b[0], QueryEscape(b[1..]));
      assert [b[0]] + b[1..] == b;
    }
  }

  /** An escape starts at i, if there is a '%' there. */
  predicate EscapeAt(s: string, i: nat)
    requires i < |s|
  {
    s[i] == '%' ==> i + 2 < |s| && HexValue(s[i + 1]).Some? && HexValue(s[i + 2]).Some?
  }

  ghost predicate Escaped(s: string) { forall i | 0 <= i < |s| :: EscapeAt(s, i) }

  lemma {:induction false} EscapedTail(s: string, k: nat)
    requires k <= |s| && forall i | 0 <= i < k :: EscapeAt(s, i)
    ensures Escaped(s) <==> Escaped(s[k..])
  {
    if Escaped(s) {
      forall i | 0 <= i < |s| - k ensures EscapeAt(s[k..], i) {
        assert EscapeAt(s, i + k);
      }
    }
    if Escaped(s[k..]) {
      forall i | k <= i < |s| ensures EscapeAt(s, i) {
        assert EscapeAt(s[k..], i - k);
      }
    }
  }

  /** A text is unescaped exactly if every '%' is followed by two hex digits. */
  lemma {:induction false} UnescapableIff(s: ByteString)
    ensures QueryUnescape(s).Some? <==> Escaped(s)
  {
    if s == [] {
    } else if s[0] != '%' {
      EscapedTail(s, 1);
      UnescapableIff(s[1..]);
    } else if EscapeAt(s, 0) {
      assert EscapeAt(s, 1) && EscapeAt(s, 2);
      EscapedTail(s, 3);
      UnescapableIff(s[3..]);
    }
  }

  // ---- Transform ----

  datatype TransformError = BadAction | BadScheme | DecodeFailed

  datatype Scheme = Base64 | Base64Url | Base32 | Hex | Url

  /** `strings.ToLower` maps only ASCII letters to the letters of these names, so ASCII case is all that matters. */
  function SchemeNamed(name: string): Option<Scheme> {
    var n := Lower(name);
    if n == "base64" then Some(Base64)
    else if n == "base64url" then Some(Base64Url)
    else if n == "base32" then Some(Base32)
    else if n == "hex" then Some(Hex)
    else if n == "url" then Some(Url)
    else None
  }

  function AlphabetOf(s: Scheme): Alphabet
    requires s.Base64? || s.Base64Url? || s.Base32?
  {
    match s case Base64 => Standard64 case Base64Url => Url64 case Base32 => Standard32
  }

  function EncodeAs(s: Scheme, b: seq<byte>): string {
    match s
    case Hex => EncodeHex(b)
    case Url => QueryEscape(b)
    case _ => Encode(AlphabetOf(s), true, b)
  }

  function DecodeAs(s: Scheme, text: ByteString): Option<seq<byte>> {
    match s
    case Hex => DecodeHex(text)
    case Url => QueryUnescape(text)
    case _ => Decode(AlphabetOf(s), true, text)
  }

  lemma {:induction false} SpelledBytes(a: Alphabet, vs: seq<nat>)
    requires Bits.Fit(vs, Width(a))
    ensures AllBytes(Spell(a, vs))
  {
    SixtyFour();
    if vs != [] {
      SpelledBytes(a, vs[1..]);
    }
  }

  lemma {:induction false} EncodedBytes(s: Scheme, b: seq<byte>)
    ensures AllBytes(EncodeAs(s, b))
  {
    match s
    case Hex => HexRoundTrip(b);
    case Url => EscapeRoundTrip(b);
    case _ =>
      GroupsFit(AlphabetOf(s), b);
      SpelledBytes(AlphabetOf(s), Groups(AlphabetOf(s), b));
  }

  function Transform(action: string, scheme: string, text: ByteString): Result<ByteString, TransformError> {
    if action != "encode" && action != "decode" then Err(BadAction)
    else match SchemeNamed(scheme)
      case None => Err(BadScheme)
      case Some(s) =>
        if action == "encode" then
          EncodedBytes(s, ToBytes(text));
          Ok(EncodeAs(s, ToBytes(text)))
        else match DecodeAs(s, text)
          case None => Err(DecodeFailed)
          case Some(b) => Ok(FromBytes(b))
  }

  /** Encoding never fails under a known scheme, and decoding what it gives returns the text. */
  lemma {:induction false} TransformRoundTrip(scheme: string, text: ByteString)
    ensures SchemeNamed(scheme).Some? <==> Transform("encode", scheme, text).Ok?
    ensures Transform("encode", scheme, text).Ok? ==>
              Transform("decode", scheme, Transform("encode", scheme, text).value) == Ok(text)
  {
    if SchemeNamed(scheme).Some? {
      var s := SchemeNamed(scheme).value;
      var b := ToBytes(text);
      FromToBytes(text);
      match s
      case Hex => HexRoundTrip(b);
      case Url => EscapeRoundTrip(b);
      case _ => DecodeEncode(AlphabetOf(s), true, b);
    }
  }

  /** The texts that a scheme decodes. */
  ghost predicate Decodable(s: Scheme, text: ByteString) {
    match s
    case Hex => |text| % 2 == 0 && AllHex(text)
    case Url => Escaped(text)
    case _ => Readable(AlphabetOf(s), true, text)
  }

  lemma {:induction false} DecodesIff(s: Scheme, text: ByteString)
    ensures DecodeAs(s, text).Some? <==> Decodable(s, text)
  {
    match s
    case Hex => HexDecodableIff(text);
    case Url => UnescapableIff(text);
    case _ => DecodableIff(AlphabetOf(s), true, text);
  }

  lemma {:induction false} EncodingDecodes(s: Scheme, b: seq<byte>, text: ByteString)
    requires EncodeAs(s, b) == text
    ensures DecodeAs(s, text) == Some(b)
  {
    match s
    case Hex => HexRoundTrip(b);
    case Url => EscapeRoundTrip(b);
    case _ => DecodeEncode(AlphabetOf(s), true, b);
  }

  /**
    When each error is given: an unknown action comes before an unknown scheme, and decoding fails
    exactly for the texts that the scheme does not decode, none of which is an encoding.
  */
  lemma {:induction false} TransformErrors(action: string, scheme: string, text: ByteString)
    ensures Transform(action, scheme, text) == Err(BadAction) <==> action !in {"encode", "decode"}
    ensures Transform(action, scheme, text) == Err(BadScheme) <==>
            action in {"encode", "decode"} && SchemeNamed(scheme) == None
    ensures Transform(action, scheme, text) == Err(DecodeFailed) <==>
            action == "decode" && SchemeNamed(scheme).Some? && !Decodable(SchemeNamed(scheme).value, text)
    ensures Transform(action, scheme, text) == Err(DecodeFailed) ==>
            forall b: seq<byte> :: EncodeAs(SchemeNamed(scheme).value, b) != text
  {
    if SchemeNamed(scheme).Some? {
      var s := SchemeNamed(scheme).value;
      DecodesIff(s, text);
      forall b: seq<byte> | EncodeAs(s, b) == text ensures DecodeAs(s, text).Some? {
        EncodingDecodes(s, b, text);
      }
    }
  }

  // ---- What the schemes write ----

  /** A name spelt in letters of either case. */
  ghost predicate SpeltAs(name: string, n: string) {
    |name| == |n| && forall i | 0 <= i < |n| :: EitherCase(name[i], n[i])
  }

  predicate EitherCase(c: char, small: char) {
    c == small || ('A' <= c <= 'Z' && 'a' <= small <= 'z' && c as int - 'A' as int == small as int - 'a' as int)
  }

  lemma {:induction false} LowerIff(name: string, n: string)
    requires forall i | 0 <= i < |n| :: 'a' <= n[i] <= 'z' || '0' <= n[i] <= '9'
    ensures Lower(name) == n <==> SpeltAs(name, n)
  {
    forall i, c | 0 <= i < |n| ensures LowerChar(c) == n[i] <==> EitherCase(c, n[i]) {
    }
    if Lower(name) == n {
      assert forall i | 0 <= i < |n| :: LowerChar(name[i]) == n[i];
    }
  }

  /** The five schemes by name, letter case ignored. */
  lemma {:induction false} SchemesAre(name: string)
    ensures SchemeNamed(name) == Some(Base64) <==> SpeltAs(name, "base64")
    ensures SchemeNamed(name) == Some(Base64Url) <==> SpeltAs(name, "base64url")
    ensures SchemeNamed(name) == Some(Base32) <==> SpeltAs(name, "base32")
    ensures SchemeNamed(name) == Some(Hex) <==> SpeltAs(name, "hex")
    ensures SchemeNamed(name) == Some(Url) <==> SpeltAs(name, "url")
  {
    LowerIff(name, "base64");
    LowerIff(name, "base64url");
    LowerIff(name, "base32");
    LowerIff(name, "hex");
    LowerIff(name, "url");
  }

  const HEX_SMALL := "0123456789abcdef"
  const HEX_CAPITAL := "0123456789ABCDEF"

  lemma {:induction false} HexDigitIs(v: nat)
    requires v < 16
    ensures HexDigit(v, false) == HEX_SMALL[v] && HexDigit(v, true) == HEX_CAPITAL[v]
  {
  }

  /** Two small hex digits for every byte, the upper half first. */
  lemma {:induction false} HexIs(b: seq<byte>, i: nat)
    requires i < |b|
    ensures EncodeHex(b)[2 * i] == HEX_SMALL[b[i] / 16] && EncodeHex(b)[2 * i + 1] == HEX_SMALL[b[i] % 16]
  {
    if i == 0 {
      HexDigitIs(b[0] / 16);
      HexDigitIs(b[0] % 16);
    } else {
      HexIs(b[1..], i - 1);
    }
  }

  const PLAIN := Rfc.LETTERS + Rfc.SMALL + Rfc.FIGURES + "-_.~"

  /** RFC 3986: unreserved characters stand for themselves, others are escaped; a space is a plus. */
  function Percent(x: byte): string {
    if x as char in PLAIN then [x as char]
    else if x == 32 then "+"
    else ['%', HEX_CAPITAL[x / 16], HEX_CAPITAL[x % 16]]
  }

  function PercentAll(b: seq<byte>): string { if b == [] then "" else Percent(b[0]) + PercentAll(b[1..]) }

  lemma {:induction false} PlainIff(c: char)
    ensures c in PLAIN <==> Unreserved(c)
  {
    InRun(Rfc.LETTERS, 'A', c);
    InRun(Rfc.SMALL, 'a', c);
    InRun(Rfc.FIGURES, '0', c);
    InParts(Rfc.LETTERS, Rfc.SMALL, Rfc.FIGURES, "-_.~", c);
  }

  /** Membership in a run of consecutive characters. */
  lemma {:induction false} InRun(run: string, first: char, c: char)
    requires |run| <= 26 && first as int < 128 && forall i | 0 <= i < |run| :: run[i] as int == first as int + i
    ensures c in run <==> first as int <= c as int < first as int + |run|
  {
    if first as int <= c as int < first as int + |run| {
      assert run[c as int - first as int] == c;
    }
  }

  lemma {:induction false} InParts(p: string, q: string, r: string, s: string, c: char)
    ensures c in p + q + r + s <==> c in p || c in q || c in r || c in s
  {
    assert c in p + q + r + s <==> c in p + q + r || c in s;
    assert c in p + q + r <==> c in p + q || c in r;
  }

  lemma {:induction false} QueryEscapeIs(b: seq<byte>)
    ensures QueryEscape(b) == PercentAll(b)
  {
    if b != [] {
      PlainIff(b[0] as char);
      HexDigitIs(b[0] / 16);
      HexDigitIs(b[0] % 16);
      QueryEscapeIs(b[1..]);
    }
  }

  function WrittenAs(s: Scheme, b: seq<byte>): string {
    match s
    case Base64 => Rfc.TextOf(Standard64, true, b)
    case Base64Url => Rfc.TextOf(Url64, true, b)
    case Base32 => Rfc.TextOf(Standard32, true, b)
    case Hex => EncodeHex(b)
    case Url => PercentAll(b)
  }

  lemma {:induction false} EncodeAsIs(s: Scheme, b: seq<byte>)
    ensures EncodeAs(s, b) == WrittenAs(s, b)
  {
    match s
    case Hex =>
    case Url => QueryEscapeIs(b);
    case _ => Rfc.EncodeIs(AlphabetOf(s), true, b);
  }

  /** What each scheme, by its name, makes of a text: RFC 4648 text, hex digits (HexIs) or escaped text. */
  lemma {:induction false} TransformWrites(scheme: string, text: ByteString, s: Scheme)
    requires match s
      case Base64 => SpeltAs(scheme, "base64")
      case Base64Url => SpeltAs(scheme, "base64url")
      case Base32 => SpeltAs(scheme, "base32")
      case Hex => SpeltAs(scheme, "hex")
      case Url => SpeltAs(scheme, "url")
    ensures var r := Transform("encode", scheme, text);
      r.Ok? && r.value == WrittenAs(s, ToBytes(text))
  {
    SchemesAre(scheme);
    EncodeAsIs(s, ToBytes(text));
  }

  // ---- What query unescaping reads ----

  /** A character other than '%', or a byte escaped with digits of either case. */
  datatype Token = Plain(c: char) | Escape(x: byte, capitals: (bool, bool))

  predicate TokenOk(t: Token) { t.Plain? ==> t.c != '%' && t.c as int < 256 }

  function TokenText(t: Token): string
    requires TokenOk(t)
  {
    match t
    case Plain(c) => [c]
    case Escape(x, (hi, lo)) =>
      ['%', (if hi then HEX_CAPITAL else HEX_SMALL)[x / 16], (if lo then HEX_CAPITAL else HEX_SMALL)[x % 16]]
  }

  function TokenByte(t: Token): byte
    requires TokenOk(t)
  {
    match t case Plain(c) => if c == '+' then 32 else c as int case Escape(x, _) => x
  }

  function TokensText(ts: seq<Token>): string
    requires forall i | 0 <= i < |ts| :: TokenOk(ts[i])
  {
    if ts == [] then "" else TokenText(ts[0]) + TokensText(ts[1..])
  }

  /** Unescaping reads a text token by token: a plus is a space, an escape is its byte. */
  lemma {:induction false} UnescapeReads(ts: seq<Token>)
    requires forall i | 0 <= i < |ts| :: TokenOk(ts[i])
    ensures AllBytes(TokensText(ts)) && QueryUnescape(TokensText(ts)).Some?
    ensures var b := QueryUnescape(TokensText(ts)).value;
      |b| == |ts| && forall i | 0 <= i < |ts| :: b[i] == TokenByte(ts[i])
  {
    if ts != [] {
      UnescapeReads(ts[1..]);
      ReadToken(ts[0], TokensText(ts[1..]));
    }
  }

  lemma {:induction false} ReadToken(t: Token, rest: ByteString)
    requires TokenOk(t) && QueryUnescape(rest).Some?
    ensures AllBytes(TokenText(t) + rest)
    ensures QueryUnescape(TokenText(t) + rest) == Some([TokenByte(t)] + QueryUnescape(rest).value)
  {
    match t
    case Plain(c) => ReadPlain(c, rest);
    case Escape(x, (hi, lo)) =>
      var h, l := (if hi then HEX_CAPITAL else HEX_SMALL)[x / 16], (if lo then HEX_CAPITAL else HEX_SMALL)[x % 16];
      EitherDigits(x, hi, lo);
      ReadEscape(h, l, rest);
  }

  lemma {:induction false} ReadPlain(c: char, rest: ByteString)
    requires c != '%' && c as int < 256
    ensures AllBytes([c] + rest)
    ensures QueryUnescape(rest).Some? ==>
      QueryUnescape([c] + rest) == Some([if c == '+' then 32 else c as int] + QueryUnescape(rest).value)
  {
    assert ([c] + rest)[1..] == rest;
  }

  lemma {:induction false} ReadEscape(h: char, l: char, rest: ByteString)
    requires ByteOfPair(h, l).Some? && h as int < 256 && l as int < 256
    ensures AllBytes(['%', h, l] + rest)
    ensures QueryUnescape(rest).Some? ==>
      QueryUnescape(['%', h, l] + rest) == Some([ByteOfPair(h, l).value] + QueryUnescape(rest).value)
  {
    assert (['%', h, l] + rest)[3..] == rest;
  }

  lemma {:induction false} EitherDigits(x: byte, hi: bool, lo: bool)
    ensures var h := (if hi then HEX_CAPITAL else HEX_SMALL)[x / 16];
      var l := (if lo then HEX_CAPITAL else HEX_SMALL)[x % 16];
      ByteOfPair(h, l) == Some(x) && h as int < 128 && l as int < 128
  {
    HexDigitIs(x / 16);
    HexDigitIs(x % 16);
    HexInverse(x / 16, hi, '0');
    HexInverse(x % 16, lo, '0');
  }
}
