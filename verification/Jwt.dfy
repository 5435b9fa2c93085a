/**
  `DecodeJWT`: taking the compact form of a token (RFC 7515, section 7.1) apart again.  JSON is not
  part of this model: `json` stands for the parser, and `alg` reads the header's "alg" member.
*/
module Jwt {
  import opened Wrappers
  import opened Text
  import opened Codecs

  datatype SegmentError = NotBase64 | NotJson

  datatype JwtError = WrongSegments(found: nat) | BadHeader(header: SegmentError) | BadPayload(payload: SegmentError)

  datatype JWTResult<J> = JWTResult(header: J, payload: J, signature: string, algorithm: string)

  /** Unpadded base64url, or else padded. */
  function SegmentBytes(seg: string): Option<seq<byte>> {
    match Decode(Url64, false, seg)
    case Some(b) => Some(b)
    case None => Decode(Url64, true, seg)
  }

  function ParseJson<J>(json: seq<byte> -> Option<J>, bytes: Option<seq<byte>>): Result<J, SegmentError> {
    match bytes
    case None => Err(NotBase64)
    case Some(b) => match json(b) case None => Err(NotJson) case Some(j) => Ok(j)
  }

  function Body(token: string): string { TrimPrefix(TrimSpace(token), BEARER) }

  /** What is reported of the three parts of a token: the header's failure first. */
  function Report<J>(json: seq<byte> -> Option<J>, alg: J -> Option<string>,
                     header: Option<seq<byte>>, payload: Option<seq<byte>>, signature: string)
    : Result<JWTResult<J>, JwtError>
  {
    match (ParseJson(json, header), ParseJson(json, payload))
    case (Err(e), _) => Err(BadHeader(e))
    case (Ok(_), Err(e)) => Err(BadPayload(e))
    case (Ok(h), Ok(p)) => Ok(JWTResult(h, p, signature, match alg(h) case Some(a) => a case None => ""))
  }

  function DecodeJWT<J>(json: seq<byte> -> Option<J>, alg: J -> Option<string>, token: string)
    : Result<JWTResult<J>, JwtError>
  {
    var parts := Split(Body(token), '.');
    if |parts| != 3 then Err(WrongSegments(|parts|))
    else Report(json, alg, SegmentBytes(parts[0]), SegmentBytes(parts[1]), parts[2])
  }

  // ---- Segments ----

  lemma {:induction false} EndsUnpadded(s: string)
    requires '=' !in s
    ensures TrailingPads(s) == 0
  {
    PadsCounted(s, 0);
    assert s + Pads(0) == s;
  }

  /** Text with a pad is not unpadded base64url. */
  lemma {:induction false} RawRejectsPads(seg: string)
    requires '=' in StripLineBreaks(seg)
    ensures Decode(Url64, false, seg) == None
  {
    var s := StripLineBreaks(seg);
    assert DigitsOf(false, seg) == s;
    DigitInverse(Url64, 0, '=');
    ValuesNone(Url64, s, '=');
  }

  /** Where both decoders accept a segment they agree, so their order does not matter. */
  lemma {:induction false} DecodersAgree(seg: string)
    requires Decode(Url64, false, seg).Some? && Decode(Url64, true, seg).Some?
    ensures Decode(Url64, false, seg) == Decode(Url64, true, seg)
  {
    var s := StripLineBreaks(seg);
    if '=' in s {
      RawRejectsPads(seg);
    } else {
      EndsUnpadded(s);
      assert DigitsOf(true, seg) == DigitsOf(false, seg);
    }
  }

  /** A segment decodes to the bytes it was made of, whether it was written with padding or without. */
  lemma {:induction false} SegmentEither(padded: bool, b: seq<byte>)
    ensures SegmentBytes(Encode(Url64, padded, b)) == Some(b)
  {
    DecodeEncode(Url64, padded, b);
    var seg := Encode(Url64, padded, b);
    if padded {
      EncodingPlain(Url64, padded, b);
      NothingToStrip(seg);
      if '=' in seg {
        RawRejectsPads(seg);
      } else {
        EndsUnpadded(seg);
        assert DigitsOf(true, seg) == DigitsOf(false, seg);
        GroupsPossible(Url64, b);
      }
    }
  }

  /** Base64url text has no dot and no space, and starts with a graphic character. */
  lemma {:induction false} SegmentPlain(padded: bool, b: seq<byte>)
    ensures var e := Encode(Url64, padded, b); '.' !in e && ' ' !in e && (e != "" ==> Graphic(e[0]))
  {
    GroupsFit(Url64, b);
    DigitsPlain(Url64, Groups(Url64, b));
    SixtyFour();
  }

  // ---- White space and the prefix ----

  /** Trimming the end of a token stops at its last dot. */
  lemma {:induction false} TrimAfterDot(x: string, sig: string)
    requires x != "" && x[|x| - 1] == '.'
    ensures TrimRight(x + sig) == x + TrimRight(sig)
    decreases |sig|
  {
    SpaceAfterDot(x, sig);
    var n := SpaceAtEnd(sig);
    if n > 0 {
      var shorter := sig[..|sig| - n];
      assert (x + sig)[..|x + sig| - n] == x + shorter;
      TrimAfterDot(x, shorter);
    }
  }

  lemma {:induction false} SpaceAfterDot(x: string, sig: string)
    requires x != "" && x[|x| - 1] == '.'
    ensures SpaceAtEnd(x + sig) == SpaceAtEnd(sig)
  {
    var t, k, m := x + sig, |x + sig|, |sig|;
    assert m == 0 ==> t[k - 1] == '.';
    assert m == 1 ==> t[k - 2] == '.';
    assert m == 2 ==> t[k - 3] == '.';
    assert m >= 1 ==> t[k - 1] == sig[m - 1];
    assert m >= 2 ==> t[k - 2] == sig[m - 2];
    assert m >= 3 ==> t[k - 3] == sig[m - 3];
  }

  lemma {:induction false} StartsGraphic(s: string)
    requires s != "" && Graphic(s[0])
    ensures TrimLeft(s) == s
  {
  }

  /** A text whose first dot comes before any space does not start with "Bearer ". */
  lemma {:induction false} NoBearer(t: string, k: nat)
    requires k < |t| && ' ' !in t[..k] && t[k] == '.'
    ensures !HasPrefix(t, BEARER)
  {
    if |t| >= 7 {
      assert forall i | 0 <= i < 7 :: t[..7][i] == t[i];
      if k > 6 {
        assert t[6] == t[..k][6];
      } else {
        assert '.' !in BEARER && BEARER[k] != '.';
      }
    }
  }

  lemma {:induction false} AfterBearer(rest: string)
    ensures TrimPrefix(BEARER + rest, BEARER) == rest
  {
    assert (BEARER + rest)[..|BEARER|] == BEARER && (BEARER + rest)[|BEARER|..] == rest;
  }

  function Dotted(header: string, payload: string, signature: string): string {
    header + "." + payload + "." + signature
  }

  function Compact(bearer: bool, header: string, payload: string, signature: string): string {
    Dotted(if bearer then BEARER + header else header, payload, signature)
  }

  lemma {:induction false} Prefixed(start: string, header: string, payload: string, signature: string)
    ensures Dotted(start + header, payload, signature) == start + Dotted(header, payload, signature)
  {
    Associates(start, header, ".");
    Associates(start, header + ".", payload);
    Associates(start, header + "." + payload, ".");
    Associates(start, header + "." + payload + ".", signature);
  }

  lemma {:induction false} Associates(a: string, b: string, c: string)
    ensures (a + b) + c == a + (b + c)
  {
  }

  lemma {:induction false} FirstDot(header: string, payload: string, signature: string)
    ensures var t := Dotted(header, payload, signature); |header| < |t| && t[..|header|] == header && t[|header|] == '.'
  {
  }

  lemma {:induction false} TrimDotted(start: string, payload: string, sig: string)
    requires start != "" ==> Graphic(start[0])
    ensures TrimSpace(Dotted(start, payload, sig)) == Dotted(start, payload, TrimRight(sig))
  {
    var t := Dotted(start, payload, sig);
    FirstDot(start, payload, sig);
    assert t[0] == if start == "" then '.' else t[..|start|][0];
    StartsGraphic(t);
    TrimAfterDot(start + "." + payload + ".", sig);
  }

  lemma {:induction false} BodyOfCompact(bearer: bool, header: string, payload: string, sig: string)
    requires ' ' !in header && (header != "" ==> Graphic(header[0]))
    ensures Body(Compact(bearer, header, payload, sig)) == Dotted(header, payload, TrimRight(sig))
  {
    var body := Dotted(header, payload, TrimRight(sig));
    if bearer {
      TrimDotted(BEARER + header, payload, sig);
      Prefixed(BEARER, header, payload, TrimRight(sig));
      AfterBearer(body);
    } else {
      TrimDotted(header, payload, sig);
      FirstDot(header, payload, TrimRight(sig));
      NoBearer(body, |header|);
    }
  }

  lemma {:induction false} TrimKeepsOut(s: string, c: char)
    requires c !in s
    ensures c !in TrimRight(s)
    decreases |s|
  {
    var n := SpaceAtEnd(s);
    if n > 0 {
      TrimKeepsOut(s[..|s| - n], c);
    }
  }

  lemma {:induction false} SplitThree(a: string, b: string, c: string)
    requires '.' !in a && '.' !in b && '.' !in c
    ensures Split(Dotted(a, b, c), '.') == [a, b, c]
  {
    JoinThree(a, b, c);
    SplitJoin([a, b, c], '.');
  }

  lemma {:induction false} JoinThree(a: string, b: string, c: string)
    ensures Join([a, b, c], '.') == Dotted(a, b, c)
  {
    JoinCons(a, [b, c], '.');
    JoinCons(b, [c], '.');
    assert [a] + [b, c] == [a, b, c] && [b] + [c] == [b, c];
    Associates(a + ".", b + ".", c);
    Associates(a + ".", b, ".");
  }

  /**
    Decoding undoes the compact serialization of any header and payload bytes, padded or not, with
    or without the "Bearer " prefix: exactly these bytes reach the JSON parser, and the signature
    comes back without trailing white space, that is, unchanged exactly if it has none.
  */
  lemma {:induction false} CompactRoundTrip<J>(
    json: seq<byte> -> Option<J>, alg: J -> Option<string>,
    bearer: bool, header: seq<byte>, padHeader: bool, payload: seq<byte>, padPayload: bool, sig: string)
    requires '.' !in sig
    ensures var h, p := Encode(Url64, padHeader, header), Encode(Url64, padPayload, payload);
      DecodeJWT(json, alg, Compact(bearer, h, p, sig)) == Report(json, alg, Some(header), Some(payload), TrimRight(sig))
    ensures TrimRight(sig) == sig <==> SpaceAtEnd(sig) == 0
  {
    var h, p := Encode(Url64, padHeader, header), Encode(Url64, padPayload, payload);
    SegmentPlain(padHeader, header);
    SegmentPlain(padPayload, payload);
    DecodeCompact(json, alg, bearer, h, p, sig);
    SegmentEither(padHeader, header);
    SegmentEither(padPayload, payload);
    TrimShortens(sig);
  }

  /** A signature that ends in a space comes back without it. */
  lemma {:induction false} TrailingSpaceLost<J>(json: seq<byte> -> Option<J>, alg: J -> Option<string>, b: seq<byte>)
    ensures var e := Encode(Url64, false, b);
      DecodeJWT(json, alg, Compact(false, e, e, "s ")) == Report(json, alg, Some(b), Some(b), "s")
  {
    assert "s "[..1] == "s" && TrimRight("s ") == TrimRight("s") == "s";
    CompactRoundTrip(json, alg, false, b, false, b, false, "s ");
  }

  lemma {:induction false} DecodeCompact<J>(
    json: seq<byte> -> Option<J>, alg: J -> Option<string>, bearer: bool, h: string, p: string, sig: string)
    requires '.' !in h && '.' !in p && '.' !in sig && ' ' !in h && (h != "" ==> Graphic(h[0]))
    ensures DecodeJWT(json, alg, Compact(bearer, h, p, sig))
            == Report(json, alg, SegmentBytes(h), SegmentBytes(p), TrimRight(sig))
  {
    BodyOfCompact(bearer, h, p, sig);
    TrimKeepsOut(sig, '.');
    SplitThree(h, p, TrimRight(sig));
  }

  lemma {:induction false} TrimShortens(s: string)
    ensures |TrimRight(s)| <= |s| - SpaceAtEnd(s)
    decreases |s|
  {
    var n := SpaceAtEnd(s);
    if n > 0 {
      TrimShortens(s[..|s| - n]);
    }
  }

  // ---- Which tokens are accepted ----

  ghost predicate Segmented(body: string, a: string, b: string, c: string) {
    '.' !in a && '.' !in b && '.' !in c && body == Dotted(a, b, c)
  }

  /** A text is three segments exactly if splitting it gives them. */
  lemma {:induction false} SegmentedIff(body: string, a: string, b: string, c: string)
    ensures Segmented(body, a, b, c) <==> Split(body, '.') == [a, b, c]
  {
    if Segmented(body, a, b, c) {
      SplitThree(a, b, c);
    }
    if Split(body, '.') == [a, b, c] {
      JoinSplit(body, '.');
      JoinThree(a, b, c);
      assert a == Split(body, '.')[0] && b == Split(body, '.')[1] && c == Split(body, '.')[2];
    }
  }

  ghost predicate Acceptable<J(!new)>(json: seq<byte> -> Option<J>, a: string, b: string) {
    ParseJson(json, SegmentBytes(a)).Ok? && ParseJson(json, SegmentBytes(b)).Ok?
  }

  /** A token is accepted exactly if its body is three segments, the first two being JSON in base64url. */
  lemma {:induction false} AcceptedIff<J(!new)>(json: seq<byte> -> Option<J>, alg: J -> Option<string>, token: string)
    ensures DecodeJWT(json, alg, token).Ok? <==>
            exists a, b, c :: Segmented(Body(token), a, b, c) && Acceptable(json, a, b)
  {
    var body := Body(token);
    var parts := Split(body, '.');
    forall a, b, c ensures Segmented(body, a, b, c) <==> parts == [a, b, c] {
      SegmentedIff(body, a, b, c);
    }
    if |parts| == 3 {
      ReportOk(json, alg, parts);
      assert parts == [parts[0], parts[1], parts[2]];
      assert Segmented(body, parts[0], parts[1], parts[2]);
    }
  }

  lemma {:induction false} ReportOk<J(!new)>(json: seq<byte> -> Option<J>, alg: J -> Option<string>, parts: seq<string>)
    requires |parts| == 3
    ensures Report(json, alg, SegmentBytes(parts[0]), SegmentBytes(parts[1]), parts[2]).Ok?
            <==> Acceptable(json, parts[0], parts[1])
  {
  }

  // ---- What the answer holds ----

  /**
    The answer to a compact token: its header and payload as the JSON parser has them, its signature
    without trailing white space and the header's algorithm, if it has one.  A header that is not
    JSON is reported before a payload that is not.
  */
  lemma {:induction false} CompactAnswer<J>(
    json: seq<byte> -> Option<J>, alg: J -> Option<string>,
    bearer: bool, header: seq<byte>, padHeader: bool, payload: seq<byte>, padPayload: bool, sig: string)
    requires '.' !in sig
    ensures var h, p := Encode(Url64, padHeader, header), Encode(Url64, padPayload, payload);
      var r := DecodeJWT(json, alg, Compact(bearer, h, p, sig));
      && (json(header).None? ==> r == Err(BadHeader(NotJson)))
      && (json(header).Some? && json(payload).None? ==> r == Err(BadPayload(NotJson)))
      && (json(header).Some? && json(payload).Some? ==>
            && r.Ok? && r.value.header == json(header).value && r.value.payload == json(payload).value
            && r.value.signature == TrimRight(sig)
            && (forall a :: alg(json(header).value) == Some(a) ==> r.value.algorithm == a)
            && (alg(json(header).value) == None ==> r.value.algorithm == ""))
  {
    CompactRoundTrip(json, alg, bearer, header, padHeader, payload, padPayload, sig);
  }

  function Dots(s: string): nat { if s == "" then 0 else (if s[0] == '.' then 1 else 0) + Dots(s[1..]) }

  lemma {:induction false} DotsConcat(a: string, b: string)
    ensures Dots(a + b) == Dots(a) + Dots(b)
  {
    if a == "" {
      assert a + b == b;
    } else {
      DotsConcat(a[1..], b);
      assert (a + b)[1..] == a[1..] + b;
    }
  }

  lemma {:induction false} NoDots(s: string)
    requires '.' !in s
    ensures Dots(s) == 0
  {
    if s != "" {
      NoDots(s[1..]);
    }
  }

  lemma {:induction false} SegmentsCounted(s: string)
    ensures |Split(s, '.')| == Dots(s) + 1
    decreases |s|
  {
    var i := IndexOf(s, '.');
    NoDots(s[..i]);
    if i == |s| {
      assert s[..i] == s;
    } else {
      SegmentsCounted(s[i + 1..]);
      CutAt(s, i);
      DotsConcat(s[..i] + ['.'], s[i + 1..]);
      DotsConcat(s[..i], ['.']);
      assert Dots(['.']) == 1;
    }
  }

  /** A segment is base64url, padded or not. */
  ghost predicate Readable64(seg: string) { Readable(Url64, false, seg) || Readable(Url64, true, seg) }

  lemma {:induction false} SegmentReadable(seg: string)
    ensures SegmentBytes(seg).Some? <==> Readable64(seg)
  {
    DecodableIff(Url64, false, seg);
    DecodableIff(Url64, true, seg);
  }

  /** The header or payload that a segment holds. */
  ghost predicate Holds<J(!new)>(json: seq<byte> -> Option<J>, seg: string, j: J) {
    SegmentBytes(seg).Some? && json(SegmentBytes(seg).value) == Some(j)
  }

  /** How a segment fails, if it does: it is not base64url, or what it holds is not JSON. */
  ghost predicate Fails<J(!new)>(json: seq<byte> -> Option<J>, seg: string, e: SegmentError) {
    match e
    case NotBase64 => !Readable64(seg)
    case NotJson => Readable64(seg) && forall j :: !Holds(json, seg, j)
  }

  /** The number of segments is counted first. */
  lemma {:induction false} JwtSegments<J(!new)>(
    json: seq<byte> -> Option<J>, alg: J -> Option<string>, token: string, n: nat)
    ensures DecodeJWT(json, alg, token) == Err(WrongSegments(n)) <==> n == Dots(Body(token)) + 1 && n != 3
  {
    SegmentsCounted(Body(token));
    var parts := Split(Body(token), '.');
    if |parts| == 3 {
      NeverSegments(json, alg, SegmentBytes(parts[0]), SegmentBytes(parts[1]), parts[2], n);
    }
  }

  lemma {:induction false} NeverSegments<J(!new)>(
    json: seq<byte> -> Option<J>, alg: J -> Option<string>,
    header: Option<seq<byte>>, payload: Option<seq<byte>>, signature: string, n: nat)
    ensures Report(json, alg, header, payload, signature) != Err(WrongSegments(n))
  {
  }

  /** Then the header is read, then the payload. */
  lemma {:induction false} JwtErrors<J(!new)>(
    json: seq<byte> -> Option<J>, alg: J -> Option<string>, token: string, a: string, b: string, c: string)
    requires Segmented(Body(token), a, b, c)
    ensures var r := DecodeJWT(json, alg, token);
      && (forall e :: r == Err(BadHeader(e)) <==> Fails(json, a, e))
      && (forall e :: r == Err(BadPayload(e)) <==> (exists j :: Holds(json, a, j)) && Fails(json, b, e))
      && (r.Ok? ==> Holds(json, a, r.value.header) && Holds(json, b, r.value.payload) && r.value.signature == c)
  {
    SegmentedIff(Body(token), a, b, c);
    ReportErrors(json, alg, a, b, c);
  }

  lemma {:induction false} ReportErrors<J(!new)>(
    json: seq<byte> -> Option<J>, alg: J -> Option<string>, a: string, b: string, c: string)
    ensures var r := Report(json, alg, SegmentBytes(a), SegmentBytes(b), c);
      && (forall e :: r == Err(BadHeader(e)) <==> Fails(json, a, e))
      && (forall e :: r == Err(BadPayload(e)) <==> (exists j :: Holds(json, a, j)) && Fails(json, b, e))
      && (r.Ok? ==> Holds(json, a, r.value.header) && Holds(json, b, r.value.payload) && r.value.signature == c)
  {
    SegmentHolds(json, a);
    SegmentHolds(json, b);
    var header := ParseJson(json, SegmentBytes(a));
    if header.Ok? {
      assert Holds(json, a, header.value);
    } else {
      assert Fails(json, a, header.error);
    }
  }

  lemma {:induction false} SegmentHolds<J(!new)>(json: seq<byte> -> Option<J>, seg: string)
    ensures var p := ParseJson(json, SegmentBytes(seg));
      && (forall j :: p == Ok(j) <==> Holds(json, seg, j))
      && (forall e :: p == Err(e) <==> Fails(json, seg, e))
  {
    SegmentReadable(seg);
    var bytes := SegmentBytes(seg);
    if bytes.Some? && json(bytes.value).Some? {
      assert Holds(json, seg, json(bytes.value).value);
    }
  }

  // ---- White space before a token ----

  ghost predicate Blank(s: string) { TrimLeft(s) == "" }

  lemma {:induction false} BlanksTrimmed(lead: string, t: string)
    requires Blank(lead) && t != "" && Graphic(t[0])
    ensures TrimLeft(lead + t) == t
    decreases |lead|
  {
    if lead == "" {
      assert lead + t == t;
      StartsGraphic(t);
    } else {
      var n := SpaceAtStart(lead);
      assert SpaceAtStart(lead + t) == n > 0;
      assert (lead + t)[n..] == lead[n..] + t;
      BlanksTrimmed(lead[n..], t);
    }
  }

  /** White space before a token does not matter. */
  lemma {:induction false} BlanksIgnored<J>(
    json: seq<byte> -> Option<J>, alg: J -> Option<string>, lead: string, token: string)
    requires Blank(lead) && token != "" && Graphic(token[0])
    ensures DecodeJWT(json, alg, lead + token) == DecodeJWT(json, alg, token)
  {
    BlanksTrimmed(lead, token);
    StartsGraphic(token);
  }

  /** Spaces, tabs and line breaks are white space. */
  lemma {:induction false} AsciiBlanks(s: string)
    requires forall i | 0 <= i < |s| :: s[i] in {' ', '\t', '\r', '\n'}
    ensures Blank(s)
    decreases |s|
  {
    if s != "" {
      AsciiBlanks(s[1..]);
    }
  }
}
