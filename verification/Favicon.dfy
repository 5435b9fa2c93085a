/**
  The text that `faviconHash` hashes: the base64 form of the icon in lines of 76 characters, each
  ended by a line feed (RFC 2045, section 6.8, as Python's `base64.encodebytes` writes it).
  The hash function itself is not part of this model.
*/
module Favicon {
  import opened Wrappers
  import opened Text
  import opened Codecs
  import opened Transforms

  const LINE := 76

  /** The text cut into lines. */
  function Lines(enc: string): (lines: seq<string>)
    decreases |enc|
  {
    if enc == [] then [] else if |enc| <= LINE then [enc] else [enc[..LINE]] + Lines(enc[LINE..])
  }

  /** Every line is ended by a line feed. */
  function Ended(lines: seq<string>): string { Join(lines + [""], '\n') }

  method FaviconText(data: seq<byte>) returns (text: string)
    ensures text == Ended(Lines(Encode(Standard64, true, data)))
  {
    var enc := Encode(Standard64, true, data);
    text := "";
    var i := 0;
    while i < |enc|
      invariant 0 <= i
      invariant text + Ended(Lines(enc[Min(i, |enc|)..])) == Ended(Lines(enc))
      decreases |enc| - i
    {
      var end := if i + LINE > |enc| then |enc| else i + LINE;
      NextLine(enc, i, end);
      text := text + enc[i..end];
      text := text + "\n";
      i := i + LINE;
    }
    assert enc[|enc|..] == "";
  }

  function Min(a: int, b: int): int { if a <= b then a else b }

  lemma {:induction false} NextLine(enc: string, i: nat, end: nat)
    requires i < |enc| && end == Min(i + LINE, |enc|)
    ensures Ended(Lines(enc[i..])) == enc[i..end] + "\n" + Ended(Lines(enc[end..]))
  {
    var rest := enc[i..];
    var line, after := enc[i..end], Lines(enc[end..]);
    assert enc[end..] == rest[end - i..] && line == rest[..end - i];
    if |rest| <= LINE {
      assert rest == line && after == [];
    }
    assert Lines(rest) == [line] + after;
    assert (Lines(rest) + [""])[1..] == after + [""];
  }

  /** How many lines there are and how long they are. */
  lemma {:induction false} LineLengths(enc: string)
    ensures |Lines(enc)| == (|enc| + LINE - 1) / LINE
    ensures forall i | 0 <= i < |Lines(enc)| - 1 :: |Lines(enc)[i]| == LINE
    ensures enc != "" ==> Lines(enc) != [] && 1 <= |Lines(enc)[|Lines(enc)| - 1]| <= LINE
    decreases |enc|
  {
    if |enc| > LINE {
      LineLengths(enc[LINE..]);
      assert Lines(enc) == [enc[..LINE]] + Lines(enc[LINE..]);
    }
  }

  lemma {:induction false} LinesPlain(enc: string, c: char)
    requires c !in enc
    ensures forall i | 0 <= i < |Lines(enc)| :: c !in Lines(enc)[i]
    decreases |enc|
  {
    if |enc| > LINE {
      LinesPlain(enc[LINE..], c);
    }
  }

  /**
    What any splitting at line feeds sees: ceil(n / 76) lines for n characters, all but the last of
    exactly 76 characters, the last not empty, and nothing after the last line feed.
  */
  lemma {:induction false} FaviconLines(data: seq<byte>)
    ensures var enc := Encode(Standard64, true, data);
      var parts := Split(Ended(Lines(enc)), '\n');
      && |parts| == (|enc| + 75) / 76 + 1 && parts[|parts| - 1] == ""
      && (forall i | 0 <= i < |parts| - 2 :: |parts[i]| == 76)
      && (|parts| > 1 ==> 1 <= |parts[|parts| - 2]| <= 76)
  {
    var enc := Encode(Standard64, true, data);
    EncodingPlain(Standard64, true, data);
    LineLengths(enc);
    LinesPlain(enc, '\n');
    SplitJoin(Lines(enc) + [""], '\n');
  }

  lemma {:induction false} StripFirst(s: string, c: char, rest: string)
    requires s == [c] + rest
    ensures StripLineBreaks(s) == (if c in {'\r', '\n'} then [] else [c]) + StripLineBreaks(rest)
  {
    assert s[1..] == rest;
  }

  lemma {:induction false} StripLine(line: string, rest: string)
    requires '\r' !in line && '\n' !in line
    ensures StripLineBreaks(line + "\n" + rest) == line + StripLineBreaks(rest)
  {
    var s := line + "\n" + rest;
    if line == "" {
      StripFirst(s, '\n', rest);
    } else {
      StripLine(line[1..], rest);
      StripFirst(s, line[0], line[1..] + "\n" + rest);
      assert [line[0]] + (line[1..] + StripLineBreaks(rest)) == line + StripLineBreaks(rest);
    }
  }

  /** Deleting the line feeds gives the text back. */
  lemma {:induction false} StripLines(enc: string)
    requires '\r' !in enc && '\n' !in enc
    ensures StripLineBreaks(Ended(Lines(enc))) == enc
    decreases |enc|
  {
    if enc != [] {
      var end := Min(LINE, |enc|);
      var line, rest := enc[..end], enc[end..];
      NextLine(enc, 0, end);
      assert enc[0..] == enc && enc[0..end] == line;
      StripLines(rest);
      StripLine(line, Ended(Lines(rest)));
      assert enc == line + rest;
    }
  }

  lemma {:induction false} EndedBytes(enc: string)
    requires AllBytes(enc)
    ensures AllBytes(Ended(Lines(enc)))
    decreases |enc|
  {
    if enc != [] {
      var end := Min(LINE, |enc|);
      NextLine(enc, 0, end);
      assert enc[0..] == enc;
      EndedBytes(enc[end..]);
    }
  }

  lemma {:induction false} LineBreaksSkipped(s: string, t: string)
    requires StripLineBreaks(s) == StripLineBreaks(t)
    ensures Decode(Standard64, true, s) == Decode(Standard64, true, t)
  {
  }

  lemma {:induction false} Base64Named()
    ensures SchemeNamed("base64") == Some(Base64)
  {
    assert Lower("base64") == "base64";
  }

  lemma {:induction false} DecodesBase64(text: string, data: seq<byte>)
    requires AllBytes(text) && Decode(Standard64, true, text) == Some(data)
    ensures Transform("decode", "base64", text) == Ok(FromBytes(data))
  {
    Base64Named();
  }

  /** The base64 decoder, and so `Transform`, recovers the icon from the chunked text. */
  lemma {:induction false} FaviconRoundTrip(data: seq<byte>)
    ensures var text := Ended(Lines(Encode(Standard64, true, data)));
      && AllBytes(text)
      && StripLineBreaks(text) == Encode(Standard64, true, data)
      && Transform("decode", "base64", text) == Ok(FromBytes(data))
  {
    var enc := Encode(Standard64, true, data);
    var text := Ended(Lines(enc));
    EncodingPlain(Standard64, true, data);
    EncodedBytes(Base64, data);
    StripLines(enc);
    EndedBytes(enc);
    NothingToStrip(enc);
    LineBreaksSkipped(text, enc);
    DecodeEncode(Standard64, true, data);
    DecodesBase64(text, data);
  }
}
