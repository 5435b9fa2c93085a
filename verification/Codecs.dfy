/**
  The codecs of RFC 4648, sections 4 (base64), 5 (base64url) and 6 (base32).  Encoded text is a
  string of byte-sized characters; the data is a sequence of bytes.
*/
module Codecs {
  import opened Wrappers
  import opened Bits

  type byte = x: int | 0 <= x < 256

  datatype Alphabet = Standard64 | Url64 | Standard32

  /** Bits a character stands for. */
  function Width(a: Alphabet): nat { if a.Standard32? then 5 else 6 }

  /** Characters to which padded text is filled up. */
  function Quantum(a: Alphabet): nat { if a.Standard32? then 8 else 4 }

  function Digit(a: Alphabet, v: nat): (c: char)
    requires v < Pow2(Width(a))
  {
    SixtyFour();
    match a
    case Standard32 => if v < 26 then ('A' as int + v) as char else ('2' as int + v - 26) as char
    case _ =>
      if v < 26 then ('A' as int + v) as char
      else if v < 52 then ('a' as int + v - 26) as char
      else if v < 62 then ('0' as int + v - 52) as char
      else if v == 62 then (if a.Url64? then '-' else '+')
      else (if a.Url64? then '_' else '/')
  }

  function DigitValue(a: Alphabet, c: char): (r: Option<nat>)
    ensures r.Some? ==> r.value < Pow2(Width(a))
  {
    SixtyFour();
    match a
    case Standard32 =>
      if 'A' <= c <= 'Z' then Some(c as int - 'A' as int)
      else if '2' <= c <= '7' then Some(c as int - '2' as int + 26)
      else None
    case _ =>
      if 'A' <= c <= 'Z' then Some(c as int - 'A' as int)
      else if 'a' <= c <= 'z' then Some(c as int - 'a' as int + 26)
      else if '0' <= c <= '9' then Some(c as int - '0' as int + 52)
      else if c == (if a.Url64? then '-' else '+') then Some(62)
      else if c == (if a.Url64? then '_' else '/') then Some(63)
      else None
  }

  lemma {:induction false} SixtyFour()
    ensures Pow2(4) == 16 && Pow2(5) == 32 && Pow2(6) == 64 && Pow2(8) == 256
  {
    assert Pow2(2) == 4;
    assert Pow2(4) == 16;
    assert Pow2(6) == 64;
  }

  /** Digits and values are inverse, and no digit is a pad, a line break, a dot or a space. */
  lemma {:induction false} DigitInverse(a: Alphabet, v: nat, c: char)
    ensures v < Pow2(Width(a)) ==> DigitValue(a, Digit(a, v)) == Some(v)
    ensures DigitValue(a, c).Some? ==> Digit(a, DigitValue(a, c).value) == c
    ensures c in {'=', '\r', '\n', '.', ' '} ==> DigitValue(a, c) == None
  {
    SixtyFour();
  }

  // ---- Text of a sequence of groups ----

  function Spell(a: Alphabet, vs: seq<nat>): (s: string)
    requires Fit(vs, Width(a))
    ensures |s| == |vs|
  {
    if vs == [] then [] else [Digit(a, vs[0])] + Spell(a, vs[1..])
  }

  function Values(a: Alphabet, s: string): (r: Option<seq<nat>>)
    ensures r.Some? ==> |r.value| == |s| && Fit(r.value, Width(a))
  {
    if s == [] then Some([])
    else match (DigitValue(a, s[0]), Values(a, s[1..]))
      case (Some(v), Some(vs)) => Some([v] + vs)
      case _ => None
  }

  lemma {:induction false} ValuesSpell(a: Alphabet, vs: seq<nat>)
    requires Fit(vs, Width(a))
    ensures Values(a, Spell(a, vs)) == Some(vs)
    ensures forall c | c in Spell(a, vs) :: DigitValue(a, c).Some?
  {
    if vs != [] {
      DigitInverse(a, vs[0], 'A');
      ValuesSpell(a, vs[1..]);
      assert Spell(a, vs)[1..] == Spell(a, vs[1..]) && [vs[0]] + vs[1..] == vs;
    }
  }

  lemma {:induction false} SpellValues(a: Alphabet, s: string)
    requires Values(a, s).Some?
    ensures Spell(a, Values(a, s).value) == s
  {
    if s != [] {
      DigitInverse(a, 0, s[0]);
      SpellValues(a, s[1..]);
      assert Values(a, s).value[1..] == Values(a, s[1..]).value;
    }
  }

  lemma {:induction false} ValuesNone(a: Alphabet, s: string, c: char)
    requires c in s && DigitValue(a, c) == None
    ensures Values(a, s) == None
  {
    if s[0] != c {
      ValuesNone(a, s[1..], c);
    }
  }

  // ---- Padding and line breaks ----

  function Pads(n: nat): (s: string)
    ensures |s| == n && forall i | 0 <= i < n :: s[i] == '='
  {
    seq(n, _ => '=')
  }

  function TrailingPads(s: string): (p: nat)
    ensures p <= |s| && s[|s| - p..] == Pads(p)
  {
    if s == [] || s[|s| - 1] != '=' then 0 else 1 + TrailingPads(s[..|s| - 1])
  }

  lemma {:induction false} PadsCounted(s: string, p: nat)
    requires '=' !in s
    ensures TrailingPads(s + Pads(p)) == p
  {
    var t := s + Pads(p);
    if p > 0 {
      assert t[..|t| - 1] == s + Pads(p - 1);
      PadsCounted(s, p - 1);
    } else {
      assert t == s;
    }
  }

  function StripLineBreaks(s: string): string {
    if s == [] then [] else (if s[0] in {'\r', '\n'} then [] else [s[0]]) + StripLineBreaks(s[1..])
  }

  lemma {:induction false} NothingToStrip(s: string)
    requires '\r' !in s && '\n' !in s
    ensures StripLineBreaks(s) == s
  {
    if s != [] {
      NothingToStrip(s[1..]);
    }
  }

  // ---- Encoding and decoding ----

  function Groups(a: Alphabet, b: seq<byte>): seq<nat> { Regroup(Spread(b, 8), Width(a)) }

  lemma {:induction false} GroupsFit(a: Alphabet, b: seq<byte>)
    ensures Fit(Groups(a, b), Width(a)) && Fit(b, 8)
  {
    SixtyFour();
    SpreadRegroup(Spread(b, 8), Width(a));
  }

  function Padding(a: Alphabet, padded: bool, n: nat): nat { if padded then Fill(n, Quantum(a)) else 0 }

  function Encode(a: Alphabet, padded: bool, b: seq<byte>): string {
    GroupsFit(a, b);
    var s := Spell(a, Groups(a, b));
    s + Pads(Padding(a, padded, |s|))
  }

  /** The number of digits left in the last quantum that some number of bytes encodes to. */
  predicate PossibleLength(a: Alphabet, n: nat) {
    if a.Standard32? then n % 8 in {0, 2, 4, 5, 7} else n % 4 != 1
  }

  function BytesOf(vs: seq<nat>): (b: seq<byte>)
    requires Fit(vs, 8)
    ensures b == vs
  {
    SixtyFour();
    vs
  }

  /** The bytes that a sequence of digits without padding stands for. */
  function DecodeDigits(a: Alphabet, digits: string): Option<seq<byte>> {
    if !PossibleLength(a, |digits|) then None
    else match Values(a, digits)
      case None => None
      case Some(vs) =>
        SpreadWhole(Spread(vs, Width(a)), 8);
        Some(BytesOf(Whole(Spread(vs, Width(a)), 8)))
  }

  function PadsOf(padded: bool, text: string): (p: nat)
    ensures p <= |StripLineBreaks(text)|
  {
    if padded then TrailingPads(StripLineBreaks(text)) else 0
  }

  function DigitsOf(padded: bool, text: string): (digits: string)
    ensures StripLineBreaks(text) == digits + Pads(PadsOf(padded, text))
  {
    var s := StripLineBreaks(text);
    s[..|s| - PadsOf(padded, text)]
  }

  /** Line breaks are skipped; then digits and, if padded, exactly the padding the digits call for. */
  function Decode(a: Alphabet, padded: bool, text: string): Option<seq<byte>> {
    if padded && PadsOf(padded, text) != Fill(|DigitsOf(padded, text)|, Quantum(a)) then None
    else DecodeDigits(a, DigitsOf(padded, text))
  }

  /** The number of groups of a whole number of bytes leaves a possible last quantum. */
  lemma {:induction false} GroupsPossible(a: Alphabet, b: seq<byte>)
    ensures PossibleLength(a, |Groups(a, b)|)
  {
    RegroupLength(Spread(b, 8), Width(a));
    LastQuantum(|Groups(a, b)|, |b|);
  }

  /** With less than a digit's width to fill, the number of digits leaves a possible last quantum. */
  lemma {:induction false} LastQuantum(g: nat, n: nat)
    ensures 8 * n <= 5 * g < 8 * n + 5 ==> PossibleLength(Standard32, g)
    ensures 8 * n <= 6 * g < 8 * n + 6 ==> g % 4 != 1
  {
    FiveBits(g / 8, g % 8, n);
    SixBits(g / 4, g % 4, n);
  }

  lemma {:induction false} FiveBits(q: nat, r: nat, n: nat)
    requires r < 8
    ensures 8 * n <= 5 * (8 * q + r) < 8 * n + 5 ==> r != 1 && r != 3 && r != 6
  {
  }

  lemma {:induction false} SixBits(q: nat, r: nat, n: nat)
    requires r < 4
    ensures 8 * n <= 6 * (4 * q + r) < 8 * n + 6 ==> r != 1
  {
  }

  lemma {:induction false} QuantumRest(g: nat)
    ensures PossibleLength(Standard32, g) ==> (g * 5) % 8 < 5
    ensures g % 4 != 1 ==> (g * 6) % 8 < 6
  {
    ModEight(5 * (g / 8), 5 * (g % 8));
    ModEight(3 * (g / 4), 6 * (g % 4));
  }

  lemma {:induction false} ModEight(k: nat, m: nat)
    ensures (8 * k + m) % 8 == m % 8
  {
  }

  lemma {:induction false} DigitsPlain(a: Alphabet, vs: seq<nat>)
    requires Fit(vs, Width(a))
    ensures var s := Spell(a, vs); '=' !in s && '\r' !in s && '\n' !in s && '.' !in s && ' ' !in s
  {
    ValuesSpell(a, vs);
    forall c | c in Spell(a, vs) ensures c !in {'=', '\r', '\n', '.', ' '} {
      DigitInverse(a, 0, c);
    }
  }

  lemma {:induction false} DecodeSpelled(a: Alphabet, vs: seq<nat>)
    requires Fit(vs, Width(a)) && PossibleLength(a, |vs|)
    ensures var bits := Spread(vs, Width(a));
      Fit(Whole(bits, 8), 8) && DecodeDigits(a, Spell(a, vs)) == Some(BytesOf(Whole(bits, 8)))
  {
    ValuesSpell(a, vs);
    SpreadWhole(Spread(vs, Width(a)), 8);
  }

  lemma {:induction false} DigitsOfPadded(padded: bool, s: string, p: nat)
    requires '=' !in s && '\r' !in s && '\n' !in s && (!padded ==> p == 0)
    ensures PadsOf(padded, s + Pads(p)) == p && DigitsOf(padded, s + Pads(p)) == s
  {
    NothingToStrip(s + Pads(p));
    PadsCounted(s, p);
  }

  /** Decoding undoes encoding, for every alphabet and every byte string, padded or not. */
  lemma {:induction false} DecodeEncode(a: Alphabet, padded: bool, b: seq<byte>)
    ensures Decode(a, padded, Encode(a, padded, b)) == Some(b)
  {
    GroupsFit(a, b);
    var s := Spell(a, Groups(a, b));
    DigitsPlain(a, Groups(a, b));
    DigitsOfPadded(padded, s, Padding(a, padded, |s|));
    GroupsPossible(a, b);
    DecodeSpelled(a, Groups(a, b));
    RegroupRoundTrip(b, Width(a));
  }

  /** Encodings differ for different bytes. */
  lemma {:induction false} EncodeInjective(a: Alphabet, padded: bool, b: seq<byte>, c: seq<byte>)
    requires Encode(a, padded, b) == Encode(a, padded, c)
    ensures b == c
  {
    DecodeEncode(a, padded, b);
    DecodeEncode(a, padded, c);
  }

  // ---- Which texts are decoded ----

  ghost predicate AllDigits(a: Alphabet, s: string) { forall i | 0 <= i < |s| :: DigitValue(a, s[i]).Some? }

  /** A possible number of digits, and the padding that they call for. */
  ghost predicate WellFormed(a: Alphabet, padded: bool, s: string, digits: string) {
    AllDigits(a, digits) && PossibleLength(a, |digits|) && s == digits + Pads(Padding(a, padded, |digits|))
  }

  /** The text, its line breaks apart, is digits followed by their padding. */
  ghost predicate Readable(a: Alphabet, padded: bool, text: string) {
    exists digits :: WellFormed(a, padded, StripLineBreaks(text), digits)
  }

  lemma {:induction false} ValuesIff(a: Alphabet, s: string)
    ensures Values(a, s).Some? <==> AllDigits(a, s)
  {
    if s != [] {
      ValuesIff(a, s[1..]);
      assert AllDigits(a, s) <==> DigitValue(a, s[0]).Some? && AllDigits(a, s[1..]) by {
        assert forall i | 1 <= i < |s| :: s[i] == s[1..][i - 1];
      }
    }
  }

  lemma {:induction false} DecodableIff(a: Alphabet, padded: bool, text: string)
    ensures Decode(a, padded, text).Some? <==> Readable(a, padded, text)
  {
    ValuesIff(a, DigitsOf(padded, text));
    if Decode(a, padded, text).Some? {
      assert WellFormed(a, padded, StripLineBreaks(text), DigitsOf(padded, text));
    }
    forall digits | WellFormed(a, padded, StripLineBreaks(text), digits) ensures DigitsOf(padded, text) == digits {
      DigitInverse(a, 0, '=');
      if padded {
        PadsCounted(digits, Padding(a, padded, |digits|));
      }
    }
  }

  // ---- Which texts are encodings ----

  lemma {:induction false} PossibleTight(a: Alphabet, vs: seq<nat>)
    requires Fit(vs, Width(a)) && PossibleLength(a, |vs|)
    ensures Tight(vs, Width(a))
  {
    RestLength(Spread(vs, Width(a)));
    QuantumRest(|vs|);
  }

  lemma {:induction false} RestLength(bits: seq<bool>)
    ensures |Rest(bits, 8)| == |bits| % 8
    decreases |bits|
  {
    if |bits| >= 8 {
      RestLength(bits[8..]);
    }
  }

  /** The bits of the last digit that reach no byte. */
  function Dropped(a: Alphabet, padded: bool, text: string): seq<bool>
    requires Values(a, DigitsOf(padded, text)).Some?
  {
    Rest(Spread(Values(a, DigitsOf(padded, text)).value, Width(a)), 8)
  }

  /**
    The decoder accepts more than encodings: re-encoding what it decoded gives the text back exactly
    if the text has no line breaks and the unused bits of its last digit are zero.
  */
  lemma {:induction false} EncodeDecodeIff(a: Alphabet, padded: bool, text: string)
    requires Decode(a, padded, text).Some?
    ensures Values(a, DigitsOf(padded, text)).Some?
    ensures Encode(a, padded, Decode(a, padded, text).value) == text <==>
            '\r' !in text && '\n' !in text && Dropped(a, padded, text) == Zeros(|Dropped(a, padded, text)|)
  {
    var digits := DigitsOf(padded, text);
    var vs := Values(a, digits).value;
    PossibleTight(a, vs);
    CanonicalIff(vs, Width(a));
    EncodesIff(a, padded, text, Decode(a, padded, text).value);
  }

  /** A decoded text is an encoding of b exactly if it has no line breaks and b gives its digits. */
  lemma {:induction false} EncodesIff(a: Alphabet, padded: bool, text: string, b: seq<byte>)
    requires PadsOf(padded, text) == Padding(a, padded, |DigitsOf(padded, text)|)
    requires Values(a, DigitsOf(padded, text)).Some?
    ensures Encode(a, padded, b) == text <==>
            '\r' !in text && '\n' !in text && Groups(a, b) == Values(a, DigitsOf(padded, text)).value
  {
    var digits := DigitsOf(padded, text);
    GroupsFit(a, b);
    var s := Spell(a, Groups(a, b));
    StrippedIff(text);
    SpellValues(a, digits);
    if Encode(a, padded, b) == text {
      DigitsPlain(a, Groups(a, b));
      DigitsOfPadded(padded, s, Padding(a, padded, |s|));
      ValuesSpell(a, Groups(a, b));
      EncodingPlain(a, padded, b);
    }
  }

  lemma {:induction false} StrippedIff(text: string)
    ensures StripLineBreaks(text) == text <==> '\r' !in text && '\n' !in text
    ensures '\r' !in StripLineBreaks(text) && '\n' !in StripLineBreaks(text)
  {
    if text != [] {
      StrippedIff(text[1..]);
      StripShortens(text[1..]);
    }
  }

  lemma {:induction false} StripShortens(text: string)
    ensures |StripLineBreaks(text)| <= |text|
  {
    if text != [] {
      StripShortens(text[1..]);
    }
  }

  lemma {:induction false} EncodingPlain(a: Alphabet, padded: bool, b: seq<byte>)
    ensures '\r' !in Encode(a, padded, b) && '\n' !in Encode(a, padded, b)
  {
    GroupsFit(a, b);
    DigitsPlain(a, Groups(a, b));
  }

  lemma {:induction false} TwoDigits(c: char, d: char, u: nat, v: nat)
    requires DigitValue(Standard64, c) == Some(u) && DigitValue(Standard64, d) == Some(v)
    ensures Values(Standard64, [c, d]) == Some([u, v])
  {
    assert [c, d][1..] == [d] && [d][1..] == [] && [v] + [] == [v] && [u] + [v] == [u, v];
    assert Values(Standard64, [d]) == Some([v]);
  }

  lemma {:induction false} TwoGroups(u: nat, v: nat, w: nat)
    ensures Spread([u, v], w) == BitsOf(u, w) + BitsOf(v, w)
  {
    assert [u, v][1..] == [v] && [v][1..] == [];
    assert BitsOf(v, w) + [] == BitsOf(v, w);
  }

  /** Two digits and two pads: their first eight bits are a byte, the other four are dropped. */
  lemma {:induction false} OneByte(c: char, d: char, u: nat, v: nat)
    requires DigitValue(Standard64, c) == Some(u) && DigitValue(Standard64, d) == Some(v) && c != '=' && d != '='
    requires c !in {'\r', '\n'} && d !in {'\r', '\n'}
    ensures var bits := BitsOf(u, 6) + BitsOf(v, 6);
      Decode(Standard64, true, [c, d] + Pads(2)).Some? && Dropped(Standard64, true, [c, d] + Pads(2)) == bits[8..]
  {
    DigitsOfPadded(true, [c, d], 2);
    TwoDigits(c, d, u, v);
    TwoGroups(u, v, 6);
    var bits := BitsOf(u, 6) + BitsOf(v, 6);
    assert Rest(bits, 8) == bits[8..];
    assert Fill(2, 4) == 2;
  }

  lemma {:induction false} UnusedBit(v: nat)
    requires v == 33
    ensures BitsOf(v, 6)[5]
  {
  }

  /** A text that is decoded but is no encoding: the last digit of "Zh==" has an unused bit set. */
  lemma {:induction false} NotCanonical(text: string)
    requires text == "Zh=="
    ensures Decode(Standard64, true, text).Some?
            && Encode(Standard64, true, Decode(Standard64, true, text).value) != text
  {
    var c, d, u, v := text[0], text[1], 25, 33;
    assert text == [c, d] + Pads(2);
    OneByte(c, d, u, v);
    EncodeDecodeIff(Standard64, true, text);
    UnusedBit(v);
    assert Dropped(Standard64, true, text)[3];
  }
}
