/**
  What base64, base64url and base32 text is, as RFC 4648 has it (sections 4 to 6): the characters in
  the order of their values, how the bits of three bytes make four characters and those of five
  bytes eight, and how a shorter last group is filled up.  Encode and Decode, which work on streams
  of bits, agree with it.
*/
module Rfc4648 {
  import opened Wrappers
  import opened Bits
  import opened Codecs

  const LETTERS := "ABCDEFGHIJKLMNOPQRSTUVWXYZ"

  const SMALL := "abcdefghijklmnopqrstuvwxyz"
  const FIGURES := "0123456789"

  const STANDARD := LETTERS + SMALL + FIGURES + "+/"
  const URL_SAFE := LETTERS + SMALL + FIGURES + "-_"
  const BASE32 := LETTERS + "234567"

  /** The character of a value. */
  lemma {:induction false} DigitIs(v: nat)
    requires v < 64
    ensures Pow2(Width(Standard64)) == Pow2(Width(Url64)) == |STANDARD| == |URL_SAFE| == 64
    ensures Digit(Standard64, v) == STANDARD[v] && Digit(Url64, v) == URL_SAFE[v]
  {
    SixtyFour();
    LettersAre(LETTERS, 'A', v);
    LettersAre(SMALL, 'a', v - 26);
    LettersAre(FIGURES, '0', v - 52);
    FourParts(LETTERS, SMALL, FIGURES, "+/", v);
    FourParts(LETTERS, SMALL, FIGURES, "-_", v);
  }

  lemma {:induction false} FourParts(p: string, q: string, r: string, s: string, v: nat)
    requires |p| == 26 && |q| == 26 && |r| == 10 && |s| == 2 && v < 64
    ensures (p + q + r + s)[v]
            == if v < 26 then p[v] else if v < 52 then q[v - 26] else if v < 62 then r[v - 52] else s[v - 62]
  {
  }

  lemma {:induction false} Digit32Is(v: nat)
    ensures Pow2(Width(Standard32)) == |BASE32| == 32
    ensures v < 32 ==> Digit(Standard32, v) == BASE32[v]
  {
    SixtyFour();
    LettersAre(LETTERS, 'A', v);
    LettersAre("234567", '2', v - 26);
  }

  /** A run of consecutive characters. */
  lemma {:induction false} LettersAre(s: string, first: char, v: int)
    requires |s| <= 26 && first as int < 128 && forall i | 0 <= i < |s| :: s[i] as int == first as int + i
    ensures 0 <= v < |s| ==> s[v] == (first as int + v) as char
  {
  }

  // ---- Bits of a number ----

  /** A list of bits; unlike a sequence it is compared from its first bit on. */
  datatype BitList = End | Bit(bit: bool, more: BitList)

  function Listed(l: BitList): seq<bool> {
    match l case End => [] case Bit(b, more) => [b] + Listed(more)
  }

  /** The w lowest bits of v, then others. */
  function Put(v: nat, w: nat, rest: BitList): BitList
    decreases v, w
  {
    if w == 0 then rest else Put(v / 2, w - 1, Bit(v % 2 == 1, rest))
  }

  function PutAll(vs: seq<nat>, w: nat, rest: BitList): BitList {
    if vs == [] then rest else Put(vs[0], w, PutAll(vs[1..], w, rest))
  }

  lemma {:induction false} PutIs(v: nat, w: nat, rest: BitList)
    ensures Listed(Put(v, w, rest)) == BitsOf(v, w) + Listed(rest)
    decreases w
  {
    if w > 0 {
      PutIs(v / 2, w - 1, Bit(v % 2 == 1, rest));
      assert BitsOf(v / 2, w - 1) + ([v % 2 == 1] + Listed(rest)) == BitsOf(v, w) + Listed(rest);
    }
  }

  lemma {:induction false} PutAllIs(vs: seq<nat>, w: nat)
    ensures Listed(PutAll(vs, w, End)) == Spread(vs, w)
  {
    if vs != [] {
      PutAllIs(vs[1..], w);
      PutIs(vs[0], w, PutAll(vs[1..], w, End));
    }
  }

  lemma {:induction false} Powers()
    ensures Pow2(1) == 2 && Pow2(2) == 4 && Pow2(3) == 8 && Pow2(4) == 16 && Pow2(5) == 32
    ensures Pow2(6) == 64 && Pow2(7) == 128 && Pow2(8) == 256
  {
    assert Pow2(1) == 2;
    assert Pow2(3) == 8;
    assert Pow2(5) == 32;
    assert Pow2(7) == 128;
  }

  /** The bits of a number are those of its upper part, u, followed by those of its lower part, w. */
  lemma {:induction false} Cut(v: nat, u: nat, a: nat, w: nat, b: nat, rest: BitList)
    requires w < Pow2(b) && v == u * Pow2(b) + w
    ensures Put(v, a + b, rest) == Put(u, a, Put(w, b, rest))
    decreases b
  {
    if b > 0 {
      var m := u * Pow2(b - 1);
      assert v == 2 * m + w;
      Cut(v / 2, u, a, w / 2, b - 1, Bit(w % 2 == 1, rest));
    }
  }

  /** A group made of the last bits of one byte, c, and the first bits of the next, v. */
  lemma {:induction false} Carry(g: nat, c: nat, a: nat, v: nat, u: nat, b: nat, w: nat, d: nat, rest: BitList)
    requires u < Pow2(b) && w < Pow2(d) && g == c * Pow2(b) + u && v == u * Pow2(d) + w
    ensures Put(g, a + b, Put(w, d, rest)) == Put(c, a, Put(v, b + d, rest))
  {
    Cut(v, u, b, w, d, rest);
    Cut(g, c, a, u, b, Put(w, d, rest));
  }

  // ---- Three bytes as four values ----

  /** Three bytes, each cut in two: a and b, c and d, e and f. */
  lemma {:induction false} QuadBits(x: nat, y: nat, z: nat, a: nat, b: nat, c: nat, d: nat, e: nat, f: nat,
                                    rest: BitList)
    requires x == 4 * a + b && b < 4 && y == 16 * c + d && c < 16 && d < 16 && z == 64 * e + f && e < 4 && f < 64
    ensures Put(a, 6, Put(b * 16 + c, 6, Put(d * 4 + e, 6, Put(f, 6, rest)))) == Put(x, 8, Put(y, 8, Put(z, 8, rest)))
  {
    Powers();
    Carry(d * 4 + e, d, 4, z, e, 2, f, 6, rest);
    Carry(b * 16 + c, b, 2, y, c, 4, d, 4, Put(z, 8, rest));
    Cut(x, a, 6, b, 2, Put(y, 8, Put(z, 8, rest)));
  }

  // ---- Five bytes as eight values ----

  /** The twelve pieces into which five bytes are cut. */
  datatype Pieces = Pieces(a: nat, b: nat, c: nat, d: nat, e: nat, f: nat,
                           g: nat, h: nat, i: nat, j: nat, k: nat, l: nat)

  predicate PiecesOf(p: Pieces, v: nat, w: nat, x: nat, y: nat, z: nat) {
    && v == 8 * p.a + p.b && p.b < 8 && w == 64 * p.c + 2 * p.d + p.e && p.c < 4 && p.d < 32 && p.e < 2
    && x == 16 * p.f + p.g && p.f < 16 && p.g < 16 && y == 128 * p.h + 4 * p.i + p.j && p.h < 2 && p.i < 32 && p.j < 4
    && z == 32 * p.k + p.l && p.k < 8 && p.l < 32
  }

  /** The eight groups of five bits that the pieces make. */
  function PutPieces(p: Pieces, rest: BitList): BitList { PutFirst(p, PutMiddle(p, PutLast(p, rest))) }

  function PutFirst(p: Pieces, rest: BitList): BitList { Put(p.a, 5, Put(p.b * 4 + p.c, 5, Put(p.d, 5, rest))) }

  function PutMiddle(p: Pieces, rest: BitList): BitList {
    Put(p.e * 16 + p.f, 5, Put(p.g * 2 + p.h, 5, Put(p.i, 5, rest)))
  }

  function PutLast(p: Pieces, rest: BitList): BitList { Put(p.j * 8 + p.k, 5, Put(p.l, 5, rest)) }

  lemma {:induction false} OctFirst(p: Pieces, v: nat, w: nat, x: nat, y: nat, z: nat, more: BitList)
    requires PiecesOf(p, v, w, x, y, z)
    ensures PutFirst(p, Put(p.e, 1, more)) == Put(v, 8, Put(w, 8, more))
  {
    Powers();
    Cut(2 * p.d + p.e, p.d, 5, p.e, 1, more);
    Carry(p.b * 4 + p.c, p.b, 3, w, p.c, 2, 2 * p.d + p.e, 6, more);
    Cut(v, p.a, 5, p.b, 3, Put(w, 8, more));
  }

  lemma {:induction false} OctMiddle(p: Pieces, v: nat, w: nat, x: nat, y: nat, z: nat, more: BitList)
    requires PiecesOf(p, v, w, x, y, z)
    ensures PutMiddle(p, Put(p.j, 2, more)) == Put(p.e, 1, Put(x, 8, Put(y, 8, more)))
  {
    Powers();
    Cut(4 * p.i + p.j, p.i, 5, p.j, 2, more);
    Carry(p.g * 2 + p.h, p.g, 4, y, p.h, 1, 4 * p.i + p.j, 7, more);
    Carry(p.e * 16 + p.f, p.e, 1, x, p.f, 4, p.g, 4, Put(y, 8, more));
  }

  lemma {:induction false} OctLast(p: Pieces, v: nat, w: nat, x: nat, y: nat, z: nat, rest: BitList)
    requires PiecesOf(p, v, w, x, y, z)
    ensures PutLast(p, rest) == Put(p.j, 2, Put(z, 8, rest))
  {
    Powers();
    Carry(p.j * 8 + p.k, p.j, 2, z, p.k, 3, p.l, 5, rest);
  }

  lemma {:induction false} OctBits(p: Pieces, v: nat, w: nat, x: nat, y: nat, z: nat, rest: BitList)
    requires PiecesOf(p, v, w, x, y, z)
    ensures PutPieces(p, rest) == Put(v, 8, Put(w, 8, Put(x, 8, Put(y, 8, Put(z, 8, rest)))))
  {
    OctLast(p, v, w, x, y, z, rest);
    OctMiddle(p, v, w, x, y, z, Put(z, 8, rest));
    OctFirst(p, v, w, x, y, z, Put(x, 8, Put(y, 8, Put(z, 8, rest))));
  }

  // ---- The values that bytes make, and the bytes that values make ----

  function At(xs: seq<nat>, i: nat): nat { if i < |xs| then xs[i] else 0 }

  function Quad(b: seq<nat>): (q: seq<nat>)
    ensures |q| == 4
  {
    var (x, y, z) := (At(b, 0), At(b, 1), At(b, 2));
    [x / 4, x % 4 * 16 + y / 16, y % 16 * 4 + z / 64, z % 64]
  }

  function Oct(b: seq<nat>): (q: seq<nat>)
    ensures |q| == 8
  {
    var (v, w, x, y, z) := (At(b, 0), At(b, 1), At(b, 2), At(b, 3), At(b, 4));
    [v / 8, v % 8 * 4 + w / 64, w / 2 % 32, w % 2 * 16 + x / 16, x % 16 * 2 + y / 128, y / 4 % 32, y % 4 * 8 + z / 32,
     z % 32]
  }

  function Group(a: Alphabet, b: seq<nat>): (q: seq<nat>)
    ensures |q| == Quantum(a)
  {
    if a.Standard32? then Oct(b) else Quad(b)
  }

  /** Bytes that make whole groups of characters. */
  function Block(a: Alphabet): nat { if a.Standard32? then 5 else 3 }

  /** How many values n bytes of a last, shorter group make. */
  function Short(a: Alphabet, n: nat): (k: nat)
    requires n <= Block(a)
    ensures k <= Quantum(a)
  {
    if !a.Standard32? then (if n == 0 then 0 else n + 1)
    else match n case 0 => 0 case 1 => 2 case 2 => 4 case 3 => 5 case 4 => 7 case _ => 8
  }

  /** Group by group; the last group, if it is short, as if zeros followed. */
  function ValuesOf(a: Alphabet, b: seq<nat>): seq<nat> {
    if |b| < Block(a) then Group(a, b)[..Short(a, |b|)] else Group(a, b[..Block(a)]) + ValuesOf(a, b[Block(a)..])
  }

  predicate Bytes(b: seq<nat>) { forall i | 0 <= i < |b| :: b[i] < 256 }

  lemma {:induction false} SecondByte(p: nat, q: nat, r: nat)
    requires p < 4 && q < 32 && r < 2
    ensures var v := p * 64 + q * 2 + r; v < 256 && v / 64 == p && v / 2 % 32 == q && v % 2 == r
  {
  }

  lemma {:induction false} FourthByte(p: nat, q: nat, r: nat)
    requires p < 2 && q < 32 && r < 4
    ensures var v := p * 128 + q * 4 + r; v < 256 && v / 128 == p && v / 4 % 32 == q && v % 4 == r
  {
  }

  /** A group of values has the bits of its bytes. */
  lemma {:induction false} GroupBits(a: Alphabet, b: seq<nat>)
    requires Bytes(b) && |b| == Block(a)
    ensures Spread(Group(a, b), Width(a)) == Spread(b, 8) && Fit(Group(a, b), Width(a))
  {
    Powers();
    PutAllIs(Group(a, b), Width(a));
    PutAllIs(b, 8);
    if a.Standard32? {
      OctPut(b);
    } else {
      QuadPut(b);
    }
  }

  lemma {:induction false} QuadPut(b: seq<nat>)
    requires Bytes(b) && |b| == 3
    ensures PutAll(Quad(b), 6, End) == PutAll(b, 8, End)
  {
    var x, y, z := b[0], b[1], b[2];
    QuadBits(x, y, z, x / 4, x % 4, y / 16, y % 16, z / 64, z % 64, End);
    PutFour(x / 4, x % 4 * 16 + y / 16, y % 16 * 4 + z / 64, z % 64, 6);
    PutThree(x, y, z, 8);
    assert b == [x, y, z];
  }

  lemma {:induction false} OctPut(b: seq<nat>)
    requires Bytes(b) && |b| == 5
    ensures PutAll(Oct(b), 5, End) == PutAll(b, 8, End)
  {
    var v, w, x, y, z := b[0], b[1], b[2], b[3], b[4];
    var p := Pieces(v / 8, v % 8, w / 64, w / 2 % 32, w % 2, x / 16,
                    x % 16, y / 128, y / 4 % 32, y % 4, z / 32, z % 32);
    OctBits(p, v, w, x, y, z, End);
    PutEight(p, 5);
    PutFive(v, w, x, y, z, 8);
    assert b == [v, w, x, y, z];
  }

  lemma {:induction false} PutThree(a: nat, b: nat, c: nat, w: nat)
    ensures PutAll([a, b, c], w, End) == Put(a, w, Put(b, w, Put(c, w, End)))
  {
    assert [a, b, c][1..] == [b, c] && [b, c][1..] == [c] && [c][1..] == [];
    assert PutAll([c], w, End) == Put(c, w, End);
  }

  lemma {:induction false} PutFour(a: nat, b: nat, c: nat, d: nat, w: nat)
    ensures PutAll([a, b, c, d], w, End) == Put(a, w, Put(b, w, Put(c, w, Put(d, w, End))))
  {
    assert [a, b, c, d][1..] == [b, c, d];
    PutThree(b, c, d, w);
  }

  lemma {:induction false} PutFive(a: nat, b: nat, c: nat, d: nat, e: nat, w: nat)
    ensures PutAll([a, b, c, d, e], w, End) == Put(a, w, Put(b, w, Put(c, w, Put(d, w, Put(e, w, End)))))
  {
    assert [a, b, c, d, e][1..] == [b, c, d, e];
    PutFour(b, c, d, e, w);
  }

  function Grouped(p: Pieces): seq<nat> {
    [p.a, p.b * 4 + p.c, p.d, p.e * 16 + p.f, p.g * 2 + p.h, p.i, p.j * 8 + p.k, p.l]
  }

  lemma {:induction false} PutEight(p: Pieces, w: nat)
    requires w == 5
    ensures PutAll(Grouped(p), w, End) == PutPieces(p, End)
  {
    var all := Grouped(p);
    PutFive(all[3], all[4], all[5], all[6], all[7], w);
    assert all[1..][1..][1..] == [all[3], all[4], all[5], all[6], all[7]];
    assert PutAll(all[1..][1..], w, End) == Put(all[2], w, PutAll(all[1..][1..][1..], w, End));
    assert PutAll(all[1..], w, End) == Put(all[1], w, PutAll(all[1..][1..], w, End));
  }

  // ---- Sequences of values ----

  lemma {:induction false} Assoc(x: seq<bool>, y: seq<bool>, z: seq<bool>)
    ensures (x + y) + z == x + (y + z)
  {
  }

  lemma {:induction false} SpreadFirst(v: nat, vs: seq<nat>, w: nat)
    ensures Spread([v] + vs, w) == BitsOf(v, w) + Spread(vs, w)
  {
    assert ([v] + vs)[1..] == vs;
  }

  lemma {:induction false} SpreadConcat(us: seq<nat>, vs: seq<nat>, w: nat)
    ensures Spread(us + vs, w) == Spread(us, w) + Spread(vs, w)
  {
    if us == [] {
      assert us + vs == vs;
    } else {
      var u, rest := us[0], us[1..];
      SpreadConcat(rest, vs, w);
      SpreadFirst(u, rest + vs, w);
      assert us + vs == [u] + (rest + vs);
      Assoc(BitsOf(u, w), Spread(rest, w), Spread(vs, w));
    }
  }

  lemma {:induction false} SpreadTake(vs: seq<nat>, k: nat, w: nat)
    requires k <= |vs|
    ensures k * w <= |Spread(vs, w)| && Spread(vs[..k], w) == Spread(vs, w)[..k * w]
  {
    SpreadConcat(vs[..k], vs[k..], w);
    assert vs == vs[..k] + vs[k..];
  }

  function Noughts(n: nat): (z: seq<nat>)
    ensures |z| == n && forall i | 0 <= i < n :: z[i] == 0
  {
    seq(n, _ => 0)
  }

  lemma {:induction false} ZeroBits(n: nat)
    ensures BitsOf(0, n) == Zeros(n)
  {
    if n > 0 {
      ZeroBits(n - 1);
      assert BitsOf(0, n) == BitsOf(0, n - 1) + [false];
    }
  }

  lemma {:induction false} NoughtBits(n: nat, w: nat)
    ensures Spread(Noughts(n), w) == Zeros(n * w)
  {
    if n > 0 {
      assert Noughts(n)[1..] == Noughts(n - 1);
      NoughtBits(n - 1, w);
      ZeroBits(w);
      assert n * w == w + (n - 1) * w;
    }
  }

  lemma {:induction false} FillAgain(n: nat, w: nat, q: nat)
    requires w > 0
    ensures Fill(n + q * w, w) == Fill(n, w)
    decreases q
  {
    if q > 0 {
      FillAgain(n, w, q - 1);
      assert n + q * w - w == n + (q - 1) * w;
      FillOnce(n + q * w, w);
    }
  }

  lemma {:induction false} FillOnce(n: nat, w: nat)
    requires w > 0 && n >= w
    ensures Fill(n, w) == Fill(n - w, w)
  {
  }

  /** The zero bits that fill up the last value of a short group. */
  lemma {:induction false} ShortFill(a: Alphabet, n: nat)
    requires n < Block(a)
    ensures Short(a, n) * Width(a) == 8 * n + Fill(8 * n, Width(a))
  {
    if a.Standard32? {
      FillAgain(3, 5, 1);
      FillAgain(1, 5, 3);
      FillAgain(4, 5, 4);
      FillAgain(2, 5, 6);
      assert Fill(0, 5) == 0 && Fill(3, 5) == 2 && Fill(1, 5) == 4 && Fill(4, 5) == 1 && Fill(2, 5) == 3;
    } else {
      FillAgain(2, 6, 1);
      FillAgain(4, 6, 2);
      assert Fill(0, 6) == 0 && Fill(2, 6) == 4 && Fill(4, 6) == 2;
    }
  }

  /** A short group followed by zeros. */
  lemma {:induction false} FilledBits(a: Alphabet, b: seq<nat>)
    requires Bytes(b) && |b| < Block(a)
    ensures Fit(Group(a, b), Width(a))
    ensures Spread(Group(a, b), Width(a)) == Spread(b, 8) + Zeros((Block(a) - |b|) * 8)
  {
    var z := Noughts(Block(a) - |b|);
    NoughtsFill(a, b, z);
    GroupBits(a, b + z);
    SpreadConcat(b, z, 8);
    NoughtBits(Block(a) - |b|, 8);
  }

  lemma {:induction false} NoughtsFill(a: Alphabet, b: seq<nat>, z: seq<nat>)
    requires Bytes(b) && |b| + |z| == Block(a) && forall i | 0 <= i < |z| :: z[i] == 0
    ensures Bytes(b + z) && Group(a, b) == Group(a, b + z)
  {
    assert forall i | 0 <= i < 5 :: At(b, i) == At(b + z, i);
  }

  lemma {:induction false} ShortBits(a: Alphabet, b: seq<nat>)
    requires Bytes(b) && |b| < Block(a)
    ensures Fit(ValuesOf(a, b), Width(a))
    ensures Spread(ValuesOf(a, b), Width(a)) == Spread(b, 8) + Zeros(Fill(8 * |b|, Width(a)))
  {
    var w, k, g := Width(a), Short(a, |b|), Group(a, b);
    FilledBits(a, b);
    SpreadTake(g, k, w);
    ShortFill(a, |b|);
    assert k * w <= |Spread(g, w)|;
    TakeZeros(Spread(b, 8), (Block(a) - |b|) * 8, Fill(8 * |b|, w), k * w);
  }

  lemma {:induction false} TakeZeros(bits: seq<bool>, n: nat, m: nat, k: nat)
    requires k == |bits| + m && m <= n
    ensures (bits + Zeros(n))[..k] == bits + Zeros(m)
  {
  }

  lemma {:induction false} ValuesBits(a: Alphabet, b: seq<nat>)
    requires Bytes(b)
    ensures Fit(ValuesOf(a, b), Width(a))
    ensures Spread(ValuesOf(a, b), Width(a)) == Spread(b, 8) + Zeros(Fill(8 * |b|, Width(a)))
  {
    if |b| < Block(a) {
      ShortBits(a, b);
    } else {
      var first, rest := b[..Block(a)], b[Block(a)..];
      ValuesBits(a, rest);
      LongBits(a, first, rest);
      assert b == first + rest;
    }
  }

  lemma {:induction false} LongBits(a: Alphabet, first: seq<nat>, rest: seq<nat>)
    requires Bytes(first) && |first| == Block(a) && Fit(ValuesOf(a, rest), Width(a))
    requires Spread(ValuesOf(a, rest), Width(a)) == Spread(rest, 8) + Zeros(Fill(8 * |rest|, Width(a)))
    ensures var vs := Group(a, first) + ValuesOf(a, rest);
      && Fit(vs, Width(a))
      && Spread(vs, Width(a)) == Spread(first + rest, 8) + Zeros(Fill(8 * |first + rest|, Width(a)))
  {
    var head, tail := Group(a, first), ValuesOf(a, rest);
    GroupBits(a, first);
    FitConcat(head, tail, Width(a));
    SpreadConcat(head, tail, Width(a));
    SpreadConcat(first, rest, 8);
    FillAgain(8 * |rest|, Width(a), Quantum(a));
    Assoc(Spread(first, 8), Spread(rest, 8), Zeros(Fill(8 * |rest|, Width(a))));
  }

  lemma {:induction false} FitConcat(us: seq<nat>, vs: seq<nat>, w: nat)
    requires Fit(us, w) && Fit(vs, w)
    ensures Fit(us + vs, w)
  {
  }

  /** The groups that Encode cuts are the values of RFC 4648. */
  lemma {:induction false} GroupsAre(a: Alphabet, b: seq<byte>)
    ensures Groups(a, b) == ValuesOf(a, b)
  {
    GroupsFit(a, b);
    ValuesBits(a, b);
    SpreadRegroup(Spread(b, 8), Width(a));
    SpreadInjective(Groups(a, b), ValuesOf(a, b), Width(a));
  }

  // ---- Text ----

  function Characters(a: Alphabet): string {
    match a case Standard64 => STANDARD case Url64 => URL_SAFE case Standard32 => BASE32
  }

  /** The characters of some values. */
  function Written(a: Alphabet, vs: seq<nat>): (s: string)
    requires forall i | 0 <= i < |vs| :: vs[i] < |Characters(a)|
    ensures |s| == |vs|
  {
    seq(|vs|, i requires 0 <= i < |vs| => Characters(a)[vs[i]])
  }

  /** A character that is missing from the last quantum is an '='. */
  function Equals(a: Alphabet, n: nat): string { seq((Quantum(a) - n % Quantum(a)) % Quantum(a), _ => '=') }

  lemma {:induction false} CharactersAre(a: Alphabet, v: nat)
    ensures |Characters(a)| == Pow2(Width(a))
    ensures v < Pow2(Width(a)) ==> Digit(a, v) == Characters(a)[v]
  {
    DigitIs(if v < 64 then v else 0);
    Digit32Is(v);
  }

  lemma {:induction false} SpellIs(a: Alphabet, vs: seq<nat>)
    requires Fit(vs, Width(a))
    ensures |Characters(a)| == Pow2(Width(a)) && Spell(a, vs) == Written(a, vs)
  {
    CharactersAre(a, 0);
    if vs != [] {
      SpellIs(a, vs[1..]);
      CharactersAre(a, vs[0]);
    }
  }

  lemma {:induction false} EqualsFill(a: Alphabet, n: nat)
    ensures Equals(a, n) == Pads(Fill(n, Quantum(a)))
  {
    if a.Standard32? {
      FillEight(n);
    } else {
      FillFour(n);
    }
  }

  lemma {:induction false} FillFour(n: nat)
    ensures Fill(n, 4) == (4 - n % 4) % 4
  {
    if n >= 4 {
      FillFour(n - 4);
      assert n % 4 == (n - 4) % 4;
    }
  }

  lemma {:induction false} FillEight(n: nat)
    ensures Fill(n, 8) == (8 - n % 8) % 8
  {
    if n >= 8 {
      FillEight(n - 8);
      assert n % 8 == (n - 8) % 8;
    }
  }

  /** The text of some bytes. */
  function TextOf(a: Alphabet, padded: bool, b: seq<byte>): string {
    ValuesInRange(a, b);
    Written(a, ValuesOf(a, b)) + (if padded then Equals(a, |ValuesOf(a, b)|) else "")
  }

  lemma {:induction false} ValuesInRange(a: Alphabet, b: seq<byte>)
    ensures forall i | 0 <= i < |ValuesOf(a, b)| :: ValuesOf(a, b)[i] < |Characters(a)|
  {
    SixtyFour();
    ValuesBits(a, b);
    CharactersAre(a, 0);
  }

  /** base64, base64url and base32 text, with and without padding, is as RFC 4648 has it. */
  lemma {:induction false} EncodeIs(a: Alphabet, padded: bool, b: seq<byte>)
    ensures Encode(a, padded, b) == TextOf(a, padded, b)
  {
    GroupsFit(a, b);
    GroupsAre(a, b);
    SpellIs(a, ValuesOf(a, b));
    EqualsFill(a, |ValuesOf(a, b)|);
  }

  // ---- Reading ----

  /** The bytes of a group of values. */
  function Ungroup(a: Alphabet, v: seq<nat>): (b: seq<nat>)
    ensures |b| == Block(a)
  {
    if a.Standard32? then
      [At(v, 0) * 8 + At(v, 1) / 4, At(v, 1) % 4 * 64 + At(v, 2) * 2 + At(v, 3) / 16,
       At(v, 3) % 16 * 16 + At(v, 4) / 2, At(v, 4) % 2 * 128 + At(v, 5) * 4 + At(v, 6) / 8,
       At(v, 6) % 8 * 32 + At(v, 7)]
    else
      [At(v, 0) * 4 + At(v, 1) / 16, At(v, 1) % 16 * 16 + At(v, 2) / 4, At(v, 2) % 4 * 64 + At(v, 3)]
  }

  /** Group by group; of a short group, the bytes that it makes whole. */
  function BytesFrom(a: Alphabet, v: seq<nat>): seq<nat>
    decreases |v|
  {
    if |v| < Quantum(a) then Ungroup(a, v)[..|v| * Width(a) / 8]
    else Ungroup(a, v[..Quantum(a)]) + BytesFrom(a, v[Quantum(a)..])
  }

  lemma {:induction false} UngroupInverse(a: Alphabet, v: seq<nat>)
    requires Fit(v, Width(a)) && |v| == Quantum(a)
    ensures Bytes(Ungroup(a, v)) && Group(a, Ungroup(a, v)) == v
  {
    SixtyFour();
    if a.Standard32? {
      Inverse32(v);
    } else {
      Inverse64(a, v);
    }
  }

  lemma {:induction false} Inverse32(v: seq<nat>)
    requires |v| == 8 && forall i | 0 <= i < 8 :: v[i] < 32
    ensures Bytes(Ungroup(Standard32, v)) && Oct(Ungroup(Standard32, v)) == v
  {
    FirstBytes(v[0], v[1], v[2], v[3]);
    TwoParts(v[3] % 16 * 16 + v[4] / 2, v[3] % 16, v[4] / 2, 16);
    LastBytes(v[4], v[5], v[6], v[7]);
    OctReads(Ungroup(Standard32, v), v);
  }

  lemma {:induction false} Inverse64(a: Alphabet, v: seq<nat>)
    requires !a.Standard32? && |v| == 4 && forall i | 0 <= i < 4 :: v[i] < 64
    ensures Bytes(Ungroup(a, v)) && Quad(Ungroup(a, v)) == v
  {
    var same := [v[0], v[1], v[2], v[3]];
    assert v == same;
    ThreeBytes(v[0], v[1], v[2], v[3]);
  }

  lemma {:induction false} ThreeBytes(a: nat, b: nat, c: nat, d: nat)
    requires a < 64 && b < 64 && c < 64 && d < 64
    ensures var u := Ungroup(Standard64, [a, b, c, d]);
      Bytes(u) && u == Ungroup(Url64, [a, b, c, d]) && Quad(u) == [a, b, c, d]
  {
    TwoParts(a * 4 + b / 16, a, b / 16, 4);
    TwoParts(b % 16 * 16 + c / 4, b % 16, c / 4, 16);
    TwoParts(c % 4 * 64 + d, c % 4, d, 64);
    TwoParts(b, b / 16, b % 16, 16);
    TwoParts(c, c / 4, c % 4, 4);
  }

  lemma {:induction false} TwoParts(v: nat, q: nat, r: nat, m: nat)
    requires m in {4, 8, 16, 32, 64, 128} && r < m && v == q * m + r
    ensures v / m == q && v % m == r
  {
  }

  lemma {:induction false} OctReads(u: seq<nat>, v: seq<nat>)
    requires |u| == 5 && |v| == 8
    requires u[0] / 8 == v[0] && u[0] % 8 * 4 + u[1] / 64 == v[1] && u[1] / 2 % 32 == v[2]
    requires u[1] % 2 * 16 + u[2] / 16 == v[3] && u[2] % 16 * 2 + u[3] / 128 == v[4] && u[3] / 4 % 32 == v[5]
    requires u[3] % 4 * 8 + u[4] / 32 == v[6] && u[4] % 32 == v[7]
    ensures Oct(u) == v
  {
    assert v == [v[0], v[1], v[2], v[3], v[4], v[5], v[6], v[7]];
  }

  lemma {:induction false} FirstBytes(a: nat, b: nat, c: nat, d: nat)
    requires a < 32 && b < 32 && c < 32 && d < 32
    ensures var x, y := a * 8 + b / 4, b % 4 * 64 + c * 2 + d / 16;
      x < 256 && y < 256 && x / 8 == a && x % 8 * 4 + y / 64 == b && y / 2 % 32 == c && y % 2 == d / 16
  {
    TwoParts(a * 8 + b / 4, a, b / 4, 8);
    SecondByte(b % 4, c, d / 16);
  }

  lemma {:induction false} LastBytes(e: nat, f: nat, g: nat, h: nat)
    requires e < 32 && f < 32 && g < 32 && h < 32
    ensures var y, z := e % 2 * 128 + f * 4 + g / 8, g % 8 * 32 + h;
      y < 256 && z < 256 && y / 128 == e % 2 && y / 4 % 32 == f && y % 4 * 8 + z / 32 == g && z % 32 == h
  {
    FourthByte(e % 2, f, g / 8);
    TwoParts(g % 8 * 32 + h, g % 8, h, 32);
  }

  lemma {:induction false} UngroupBits(a: Alphabet, v: seq<nat>)
    requires Fit(v, Width(a)) && |v| == Quantum(a)
    ensures Bytes(Ungroup(a, v)) && Spread(v, Width(a)) == Spread(Ungroup(a, v), 8)
  {
    UngroupInverse(a, v);
    GroupBits(a, Ungroup(a, v));
  }

  lemma {:induction false} WholeAppend(us: seq<nat>, rest: seq<bool>)
    requires Fit(us, 8)
    ensures Whole(Spread(us, 8) + rest, 8) == us + Whole(rest, 8)
  {
    if us == [] {
      assert [] + rest == rest && us + Whole(rest, 8) == Whole(rest, 8);
    } else {
      WholeAppend(us[1..], rest);
      WholeMore(us[0], us[1..], rest);
      assert us == [us[0]] + us[1..];
    }
  }

  lemma {:induction false} WholeMore(u: nat, others: seq<nat>, rest: seq<bool>)
    requires u < Pow2(8) && Whole(Spread(others, 8) + rest, 8) == others + Whole(rest, 8)
    ensures Whole(Spread([u] + others, 8) + rest, 8) == [u] + others + Whole(rest, 8)
  {
    SpreadFirst(u, others, 8);
    Assoc(BitsOf(u, 8), Spread(others, 8), rest);
    WholeFirst(u, Spread(others, 8) + rest);
    assert [u] + (others + Whole(rest, 8)) == [u] + others + Whole(rest, 8);
  }

  lemma {:induction false} WholeFirst(u: nat, rest: seq<bool>)
    requires u < Pow2(8)
    ensures Whole(BitsOf(u, 8) + rest, 8) == [u] + Whole(rest, 8)
  {
    var bits := BitsOf(u, 8) + rest;
    assert bits[..8] == BitsOf(u, 8) && bits[8..] == rest;
    ValueOfBits(u, 8);
  }

  lemma {:induction false} UngroupFilled(a: Alphabet, v: seq<nat>, z: seq<nat>)
    requires Fit(v, Width(a)) && |v| + |z| == Quantum(a) && forall i | 0 <= i < |z| :: z[i] == 0
    ensures Fit(v + z, Width(a)) && Ungroup(a, v) == Ungroup(a, v + z)
  {
    assert forall i | 0 <= i < 8 :: At(v, i) == At(v + z, i);
  }

  lemma {:induction false} ShortBytes(a: Alphabet, v: seq<nat>)
    requires Fit(v, Width(a)) && |v| < Quantum(a)
    ensures Whole(Spread(v, Width(a)), 8) == BytesFrom(a, v)
  {
    SixtyFour();
    var w, z := Width(a), Noughts(Quantum(a) - |v|);
    var u, k := Ungroup(a, v), |v| * Width(a);
    UngroupFilled(a, v, z);
    UngroupBits(a, v + z);
    SpreadTake(v + z, |v|, w);
    assert (v + z)[..|v|] == v;
    SpreadTake(u, k / 8, 8);
    CutThree(Spread(u, 8), k / 8 * 8, k);
    WholeSpread(u[..k / 8], 8, Spread(u, 8)[k / 8 * 8..k]);
  }

  lemma {:induction false} CutThree(bits: seq<bool>, i: nat, k: nat)
    requires i <= k <= |bits|
    ensures bits[..k] == bits[..i] + bits[i..k]
  {
  }

  /** The bytes that Decode reads from values are those of RFC 4648; unused bits are dropped. */
  lemma {:induction false} BytesAre(a: Alphabet, v: seq<nat>)
    requires Fit(v, Width(a))
    ensures Whole(Spread(v, Width(a)), 8) == BytesFrom(a, v)
    decreases |v|
  {
    if |v| < Quantum(a) {
      ShortBytes(a, v);
    } else {
      SixtyFour();
      var first, rest := v[..Quantum(a)], v[Quantum(a)..];
      UngroupBits(a, first);
      BytesAre(a, rest);
      SpreadConcat(first, rest, Width(a));
      assert v == first + rest;
      WholeAppend(Ungroup(a, first), Spread(rest, Width(a)));
    }
  }

  /** A text that is decoded gives the bytes that its digits stand for. */
  lemma {:induction false} DecodeIs(a: Alphabet, padded: bool, text: string, vs: seq<nat>, pads: string)
    requires forall i | 0 <= i < |vs| :: vs[i] < |Characters(a)|
    requires StripLineBreaks(text) == Written(a, vs) + pads && pads == (if padded then Equals(a, |vs|) else "")
    requires PossibleLength(a, |vs|)
    ensures Decode(a, padded, text).Some? && Decode(a, padded, text).value == BytesFrom(a, vs)
  {
    CharactersAre(a, 0);
    SpellIs(a, vs);
    var digits := Spell(a, vs);
    EqualsFill(a, |vs|);
    DigitsPlain(a, vs);
    StripsTo(padded, text, digits, if padded then Fill(|vs|, Quantum(a)) else 0);
    DecodeSpelled(a, vs);
    BytesAre(a, vs);
  }

  lemma {:induction false} StripsTo(padded: bool, text: string, digits: string, p: nat)
    requires StripLineBreaks(text) == digits + Pads(p) && '=' !in digits && (!padded ==> p == 0)
    ensures PadsOf(padded, text) == p && DigitsOf(padded, text) == digits
  {
    PadsCounted(digits, p);
  }
}
