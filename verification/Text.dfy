/**
  The string operations the program uses.  A Go string is a sequence of bytes and Go compares
  strings byte by byte; a `char` of the model stands for one byte.
*/
module Text {
  import opened Wrappers
  import opened Sorting

  // ---- Comparison ----

  predicate StrLe(a: string, b: string) {
    a == [] || (b != [] && (a[0] < b[0] || (a[0] == b[0] && StrLe(a[1..], b[1..]))))
  }

  lemma StrTotal(a: string, b: string)
    ensures StrLe(a, b) || StrLe(b, a)
  {
    if a != [] && b != [] {
      StrTotal(a[1..], b[1..]);
    }
  }

  lemma StrAntisymmetric(a: string, b: string)
    requires StrLe(a, b) && StrLe(b, a)
    ensures a == b
  {
    if a != [] && b != [] {
      StrAntisymmetric(a[1..], b[1..]);
      assert a == [a[0]] + a[1..] && b == [b[0]] + b[1..];
    }
  }

  lemma StrTransitive(a: string, b: string, c: string)
    requires StrLe(a, b) && StrLe(b, c)
    ensures StrLe(a, c)
  {
    if a != [] && a[0] == b[0] && b[0] == c[0] {
      StrTransitive(a[1..], b[1..], c[1..]);
    }
  }

  lemma {:induction false} StrOrder()
    ensures TotalOrder(StrLe)
  {
    forall a, b ensures StrLe(a, b) || StrLe(b, a) {
      StrTotal(a, b);
    }
    forall a, b | StrLe(a, b) && StrLe(b, a) ensures a == b {
      StrAntisymmetric(a, b);
    }
    forall a, b, c ensures Chains(StrLe, a, b, c) {
      if StrLe(a, b) && StrLe(b, c) {
        StrTransitive(a, b, c);
      }
    }
  }

  predicate IntLe(a: int, b: int) { a <= b }

  // ---- Prefixes, suffixes and splitting ----

  /** What precedes a token in an Authorization header. */
  const BEARER := "Bearer "

  predicate HasPrefix(s: string, p: string) { |p| <= |s| && s[..|p|] == p }

  predicate HasSuffix(s: string, p: string) { |p| <= |s| && s[|s| - |p|..] == p }

  function TrimPrefix(s: string, p: string): string { if HasPrefix(s, p) then s[|p|..] else s }

  function TrimSuffix(s: string, p: string): string { if HasSuffix(s, p) then s[..|s| - |p|] else s }

  /** The position of the first `c`, or |s|. */
  function IndexOf(s: string, c: char): (i: nat)
    ensures i <= |s| && c !in s[..i] && (i < |s| ==> s[i] == c)
  {
    if s == [] then 0 else if s[0] == c then 0 else 1 + IndexOf(s[1..], c)
  }

  function Split(s: string, sep: char): (parts: seq<string>)
    ensures |parts| >= 1
    ensures forall i | 0 <= i < |parts| :: sep !in parts[i]
    decreases |s|
  {
    var i := IndexOf(s, sep);
    if i == |s| then [s] else [s[..i]] + Split(s[i + 1..], sep)
  }

  function Join(parts: seq<string>, sep: char): string
    requires |parts| >= 1
  {
    if |parts| == 1 then parts[0] else parts[0] + [sep] + Join(parts[1..], sep)
  }

  lemma IndexOfUnique(s: string, c: char, i: nat)
    requires i <= |s| && c !in s[..i] && (i < |s| ==> s[i] == c)
    ensures IndexOf(s, c) == i
  {
    if s != [] && s[0] != c {
      assert i > 0 && s[1..][..i - 1] == s[..i][1..];
      IndexOfUnique(s[1..], c, i - 1);
    }
  }

  lemma {:induction false} SplitJoin(parts: seq<string>, sep: char)
    requires |parts| >= 1
    requires forall i | 0 <= i < |parts| :: sep !in parts[i]
    ensures Split(Join(parts, sep), sep) == parts
  {
    var first, rest := parts[0], parts[1..];
    HeadTail(parts);
    if rest == [] {
      SplitWhole(first, sep);
    } else {
      SplitJoin(rest, sep);
      JoinCons(first, rest, sep);
      SplitCons(first, Join(rest, sep), sep);
    }
  }

  lemma {:induction false} HeadTail<T>(xs: seq<T>)
    requires xs != []
    ensures [xs[0]] + xs[1..] == xs
  {
  }

  lemma {:induction false} SplitWhole(s: string, sep: char)
    requires sep !in s
    ensures Split(s, sep) == [s]
  {
    assert s[..|s|] == s;
    IndexOfUnique(s, sep, |s|);
  }

  lemma {:induction false} SplitCons(first: string, rest: string, sep: char)
    requires sep !in first
    ensures Split(first + [sep] + rest, sep) == [first] + Split(rest, sep)
  {
    var s := first + [sep] + rest;
    assert s[..|first|] == first && s[|first|] == sep && s[|first| + 1..] == rest;
    IndexOfUnique(s, sep, |first|);
  }

  lemma {:induction false} JoinCons(first: string, rest: seq<string>, sep: char)
    requires rest != []
    ensures Join([first] + rest, sep) == first + [sep] + Join(rest, sep)
  {
    assert ([first] + rest)[1..] == rest;
  }

  lemma {:induction false} CutAt(s: string, i: nat)
    requires i < |s|
    ensures s[..i] + [s[i]] + s[i + 1..] == s
  {
  }

  lemma {:induction false} JoinSplit(s: string, sep: char)
    ensures Join(Split(s, sep), sep) == s
    decreases |s|
  {
    var i := IndexOf(s, sep);
    if i < |s| {
      var rest := s[i + 1..];
      JoinSplit(rest, sep);
      JoinCons(s[..i], Split(rest, sep), sep);
      CutAt(s, i);
    }
  }

  // ---- White space ----

  /** Bytes of the white-space rune that s starts with, 0 if it starts with none (`unicode.IsSpace` in UTF-8). */
  function SpaceAtStart(s: string): (n: nat)
    ensures n <= |s|
  {
    if |s| >= 1 && NarrowSpace(s[0]) then 1
    else if |s| >= 2 && WideSpace2(s[0], s[1]) then 2
    else if |s| >= 3 && WideSpace3(s[0], s[1], s[2]) then 3
    else 0
  }

  function SpaceAtEnd(s: string): (n: nat)
    ensures n <= |s|
  {
    var k := |s|;
    if k >= 1 && NarrowSpace(s[k - 1]) then 1
    else if k >= 2 && WideSpace2(s[k - 2], s[k - 1]) then 2
    else if k >= 3 && WideSpace3(s[k - 3], s[k - 2], s[k - 1]) then 3
    else 0
  }

  predicate NarrowSpace(a: char) { 9 <= a as int <= 13 || a == ' ' }

  /** U+0085 and U+00A0. */
  predicate WideSpace2(a: char, b: char) { a as int == 0xC2 && (b as int == 0x85 || b as int == 0xA0) }

  /** U+1680, U+2000 to U+200A, U+2028, U+2029, U+202F, U+205F and U+3000. */
  predicate WideSpace3(a: char, b: char, c: char) {
    || (a as int == 0xE1 && b as int == 0x9A && c as int == 0x80)
    || (a as int == 0xE2 && b as int == 0x80 && 0x80 <= c as int <= 0x8A)
    || (a as int == 0xE2 && b as int == 0x80 && c as int in {0xA8, 0xA9, 0xAF})
    || (a as int == 0xE2 && b as int == 0x81 && c as int == 0x9F)
    || (a as int == 0xE3 && b as int == 0x80 && c as int == 0x80)
  }

  function TrimLeft(s: string): string {
    var n := SpaceAtStart(s);
    if n == 0 then s else TrimLeft(s[n..])
  }

  function TrimRight(s: string): string {
    var n := SpaceAtEnd(s);
    if n == 0 then s else TrimRight(s[..|s| - n])
  }

  function TrimSpace(s: string): string { TrimRight(TrimLeft(s)) }

  /** A printable ASCII character that is not a space. */
  predicate Graphic(c: char) { 33 <= c as int <= 126 }

  lemma {:induction false} TrimGraphic(s: string)
    requires s != [] ==> Graphic(s[0]) && Graphic(s[|s| - 1])
    ensures TrimSpace(s) == s
  {
  }

  // ---- Decimal numbers ----

  predicate IsDigit(c: char) { '0' <= c <= '9' }

  function DigitChar(d: nat): (c: char)
    requires d < 10
    ensures IsDigit(c)
  {
    (d + '0' as int) as char
  }

  /** `strconv.Itoa`. */
  function Itoa(n: int): (s: string)
    ensures s != []
  {
    if n < 0 then "-" + Decimal(-n) else Decimal(n)
  }

  function Decimal(n: nat): (s: string)
    ensures s != [] && forall c | c in s :: IsDigit(c)
  {
    if n < 10 then [DigitChar(n)] else Decimal(n / 10) + [DigitChar(n % 10)]
  }

  /** The value of a non-empty string of digits. */
  function Digits(s: string): Option<nat> {
    if s == [] then None
    else if !IsDigit(s[|s| - 1]) then None
    else
      var d := s[|s| - 1] as int - '0' as int;
      if |s| == 1 then Some(d)
      else match Digits(s[..|s| - 1])
        case None => None
        case Some(v) => Some(10 * v + d)
  }

  const MIN_INT := -0x8000_0000_0000_0000
  const MAX_INT := 0x7FFF_FFFF_FFFF_FFFF

  /** `strconv.Atoi` on a 64-bit platform: an optional sign and digits, within the range of int. */
  function Atoi(s: string): Option<int> {
    var signed := s != [] && s[0] in {'+', '-'};
    match Digits(if signed then s[1..] else s)
    case None => None
    case Some(v) =>
      var n: int := if signed && s[0] == '-' then -(v as int) else v as int;
      if MIN_INT <= n <= MAX_INT then Some(n) else None
  }

  lemma {:induction false} DigitsDecimal(n: nat)
    ensures Digits(Decimal(n)) == Some(n)
  {
    if n >= 10 {
      var s := Decimal(n);
      assert s[..|s| - 1] == Decimal(n / 10);
      DigitsDecimal(n / 10);
    }
  }

  /** Reading back a printed number gives the number. */
  lemma {:induction false} AtoiItoa(n: int)
    requires MIN_INT <= n <= MAX_INT
    ensures Atoi(Itoa(n)) == Some(n)
  {
    DigitsDecimal(if n < 0 then -n else n);
    var s := Itoa(n);
    assert n >= 0 ==> IsDigit(s[0]);
    assert n < 0 ==> s[1..] == Decimal(-n);
  }

  lemma {:induction false} ItoaInjective(m: int, n: int)
    requires Itoa(m) == Itoa(n)
    ensures m == n
  {
    DigitsDecimal(if m < 0 then -m else m);
    DigitsDecimal(if n < 0 then -n else n);
    var s := Itoa(m);
    assert m >= 0 ==> IsDigit(Decimal(m)[0]) && s == Decimal(m);
    assert n >= 0 ==> IsDigit(Decimal(n)[0]) && s == Decimal(n);
    assert m < 0 ==> s[1..] == Decimal(-m);
    assert n < 0 ==> s[1..] == Decimal(-n);
  }
}
