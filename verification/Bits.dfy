/**
  The regrouping of bits on which base 64, base 32 and base 16 rest (section 3 to 8 of RFC 4648):
  the bits of the bytes, most significant first, are cut into groups of w bits, the last group
  being filled up with zeros; a decoder cuts the bits of the groups into bytes and drops the rest.
*/
module Bits {

  function Pow2(n: nat): (p: nat)
    ensures p > 0
  {
    if n == 0 then 1 else 2 * Pow2(n - 1)
  }

  /** The w lowest bits of v, most significant first. */
  function BitsOf(v: nat, w: nat): (bits: seq<bool>)
    ensures |bits| == w
  {
    if w == 0 then [] else BitsOf(v / 2, w - 1) + [v % 2 == 1]
  }

  function ValueOf(bits: seq<bool>): (v: nat)
    ensures v < Pow2(|bits|)
  {
    if bits == [] then 0 else 2 * ValueOf(bits[..|bits| - 1]) + (if bits[|bits| - 1] then 1 else 0)
  }

  lemma {:induction false} ValueOfBits(v: nat, w: nat)
    requires v < Pow2(w)
    ensures ValueOf(BitsOf(v, w)) == v
  {
    if w > 0 {
      ValueOfBits(v / 2, w - 1);
      assert BitsOf(v, w)[..w - 1] == BitsOf(v / 2, w - 1);
    }
  }

  lemma {:induction false} BitsOfValue(bits: seq<bool>)
    ensures BitsOf(ValueOf(bits), |bits|) == bits
  {
    if bits != [] {
      BitsOfValue(bits[..|bits| - 1]);
    }
  }

  function Zeros(n: nat): (bits: seq<bool>)
    ensures |bits| == n && forall i | 0 <= i < n :: !bits[i]
  {
    seq(n, _ => false)
  }

  ghost predicate Fit(vs: seq<nat>, w: nat) { forall i | 0 <= i < |vs| :: vs[i] < Pow2(w) }

  /** The bits of all the values. */
  function Spread(vs: seq<nat>, w: nat): (bits: seq<bool>)
    ensures |bits| == |vs| * w
  {
    if vs == [] then [] else BitsOf(vs[0], w) + Spread(vs[1..], w)
  }

  /** Groups of w bits; the last one is filled up with zeros. */
  function Regroup(bits: seq<bool>, w: nat): seq<nat>
    requires w > 0
    decreases |bits|
  {
    if bits == [] then []
    else if |bits| < w then [ValueOf(bits + Zeros(w - |bits|))]
    else [ValueOf(bits[..w])] + Regroup(bits[w..], w)
  }

  /** Complete groups of w bits; what is left over is dropped. */
  function Whole(bits: seq<bool>, w: nat): seq<nat>
    requires w > 0
    decreases |bits|
  {
    if |bits| < w then [] else [ValueOf(bits[..w])] + Whole(bits[w..], w)
  }

  /** Zeros needed to fill the last group. */
  function Fill(n: nat, w: nat): (k: nat)
    requires w > 0
    ensures k < w
    decreases n
  {
    if n == 0 then 0 else if n < w then w - n else Fill(n - w, w)
  }

  lemma {:induction false} SpreadCons(first: seq<bool>, tail: seq<nat>, w: nat)
    requires |first| == w && Fit(tail, w)
    ensures Spread([ValueOf(first)] + tail, w) == first + Spread(tail, w)
    ensures Fit([ValueOf(first)] + tail, w)
  {
    BitsOfValue(first);
    assert ([ValueOf(first)] + tail)[1..] == tail;
  }

  lemma {:induction false} LastGroup(bits: seq<bool>, w: nat)
    requires 0 < |bits| < w
    ensures Spread(Regroup(bits, w), w) == bits + Zeros(w - |bits|)
    ensures Fit(Regroup(bits, w), w)
  {
    var last := bits + Zeros(w - |bits|);
    SpreadCons(last, [], w);
    assert Regroup(bits, w) == [ValueOf(last)] + [];
    assert last + [] == last;
  }

  lemma {:induction false} SpreadRegroup(bits: seq<bool>, w: nat)
    requires w > 0
    ensures Spread(Regroup(bits, w), w) == bits + Zeros(Fill(|bits|, w))
    ensures Fit(Regroup(bits, w), w)
    decreases |bits|
  {
    if bits == [] {
    } else if |bits| < w {
      LastGroup(bits, w);
    } else {
      var fill := Zeros(Fill(|bits|, w));
      SpreadRegroup(bits[w..], w);
      SpreadCons(bits[..w], Regroup(bits[w..], w), w);
      Glue(bits, w, fill);
    }
  }

  lemma {:induction false} Glue(bits: seq<bool>, w: nat, fill: seq<bool>)
    requires w <= |bits|
    ensures bits[..w] + (bits[w..] + fill) == bits + fill
  {
  }

  lemma {:induction false} WholeSpread(vs: seq<nat>, w: nat, extra: seq<bool>)
    requires w > 0 && Fit(vs, w) && |extra| < w
    ensures Whole(Spread(vs, w) + extra, w) == vs
  {
    if vs == [] {
      assert [] + extra == extra;
    } else {
      var bits := Spread(vs, w) + extra;
      assert bits[..w] == BitsOf(vs[0], w) && bits[w..] == Spread(vs[1..], w) + extra;
      ValueOfBits(vs[0], w);
      WholeSpread(vs[1..], w, extra);
    }
  }

  /** Cutting bytes into groups of at most eight bits and back gives the bytes, whatever their number. */
  lemma {:induction false} RegroupRoundTrip(bytes: seq<nat>, w: nat)
    requires 0 < w <= 8 && Fit(bytes, 8)
    ensures Whole(Spread(Regroup(Spread(bytes, 8), w), w), 8) == bytes
  {
    var bits := Spread(bytes, 8);
    SpreadRegroup(bits, w);
    WholeSpread(bytes, 8, Zeros(Fill(|bits|, w)));
  }

  /** The number of groups is the number of bits over w, rounded up. */
  lemma {:induction false} RegroupLength(bits: seq<bool>, w: nat)
    requires w > 0
    ensures |Regroup(bits, w)| * w == |bits| + Fill(|bits|, w)
  {
    SpreadRegroup(bits, w);
  }

  // ---- The other direction ----

  /** The bits that Whole drops. */
  function Rest(bits: seq<bool>, w: nat): (r: seq<bool>)
    requires w > 0
    ensures |r| < w && |r| <= |bits|
    decreases |bits|
  {
    if |bits| < w then bits else Rest(bits[w..], w)
  }

  lemma {:induction false} SpreadWhole(bits: seq<bool>, w: nat)
    requires w > 0
    ensures Spread(Whole(bits, w), w) + Rest(bits, w) == bits
    ensures Fit(Whole(bits, w), w)
    decreases |bits|
  {
    if |bits| < w {
      assert [] + bits == bits;
    } else {
      SpreadWhole(bits[w..], w);
      var tail := Whole(bits[w..], w);
      SpreadCons(bits[..w], tail, w);
      Reassemble(bits, w, Spread(tail, w), Rest(bits[w..], w));
    }
  }

  lemma {:induction false} Reassemble(bits: seq<bool>, w: nat, a: seq<bool>, b: seq<bool>)
    requires w <= |bits| && bits[w..] == a + b
    ensures bits[..w] + a + b == bits
  {
    assert bits == bits[..w] + bits[w..];
  }

  lemma {:induction false} SpreadInjective(us: seq<nat>, vs: seq<nat>, w: nat)
    requires w > 0 && Fit(us, w) && Fit(vs, w) && Spread(us, w) == Spread(vs, w)
    ensures us == vs
  {
    WholeSpread(us, w, []);
    WholeSpread(vs, w, []);
    assert Spread(us, w) + [] == Spread(us, w) && Spread(vs, w) + [] == Spread(vs, w);
  }

  /** No group is made of dropped bits only. */
  predicate Tight(groups: seq<nat>, w: nat)
    requires w > 0
  {
    |Rest(Spread(groups, w), 8)| < w
  }

  /**
    Re-encoding what was decoded gives the same groups exactly if the dropped bits are zero, for
    every tight sequence of groups.
  */
  lemma {:induction false} CanonicalIff(groups: seq<nat>, w: nat)
    requires 0 < w <= 8 && Fit(groups, w) && Tight(groups, w)
    ensures var dropped := Rest(Spread(groups, w), 8);
      Regroup(Spread(Whole(Spread(groups, w), 8), 8), w) == groups <==> dropped == Zeros(|dropped|)
  {
    var bits := Spread(groups, w);
    var dropped := Rest(bits, 8);
    var kept := Spread(Whole(bits, 8), 8);
    var again := Regroup(kept, w);
    SpreadWhole(bits, 8);
    SpreadRegroup(kept, w);
    FillExact(|kept|, |dropped|, |groups|, w);
    assert Spread(again, w) == kept + Zeros(|dropped|);
    if dropped == Zeros(|dropped|) {
      SpreadInjective(again, groups, w);
    }
    if again == groups {
      assert dropped == bits[|kept|..] == Zeros(|dropped|);
    }
  }

  lemma {:induction false} FillExact(n: nat, k: nat, groups: nat, w: nat)
    requires w > 0 && k < w && n + k == groups * w
    ensures Fill(n, w) == k
    decreases n
  {
    if n >= w {
      assert n - w + k == (groups - 1) * w;
      FillExact(n - w, k, groups - 1, w);
    } else {
      AtLeast(groups, 1, w);
      AtLeast(groups, 2, w);
    }
  }

  lemma {:induction false} AtLeast(groups: nat, m: nat, w: nat)
    ensures groups >= m ==> groups * w >= m * w
  {
  }
}
