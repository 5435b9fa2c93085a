/** The loop with which ProbeHosts and DetectTakeovers deduplicate and cap their input. */
module Candidates {
  import opened Sorting

  /** The distinct non-blank members of xs, in order of first occurrence. */
  function FirstOccurrences(xs: seq<string>): seq<string> {
    if xs == [] then []
    else
      var n := |xs| - 1;
      var before := FirstOccurrences(xs[..n]);
      if xs[n] == "" || xs[n] in before then before else before + [xs[n]]
  }

  function Take<T>(xs: seq<T>, n: nat): seq<T> { if |xs| <= n then xs else xs[..n] }

  method DedupAndCap(xs: seq<string>, normalise: string -> string, cap: nat) returns (uniq: seq<string>)
    requires cap > 0
    ensures uniq == Take(FirstOccurrences(Map(normalise, xs)), cap)
  {
    ghost var all := Map(normalise, xs);
    var seen: set<string> := {};
    uniq := [];
    for i := 0 to |xs|
      invariant uniq == FirstOccurrences(all[..i]) && |uniq| < cap
      invariant forall x :: x in seen <==> x in uniq
    {
      OccurrencesStep(all, i);
      var c := normalise(xs[i]);
      if c == "" || c in seen {
        continue;
      }
      seen := seen + {c};
      uniq := uniq + [c];
      if |uniq| >= cap {
        TakePrefix(all, i + 1, cap);
        return;
      }
    }
    assert all[..|xs|] == all;
  }

  lemma {:induction false} TakePrefix(xs: seq<string>, k: nat, cap: nat)
    requires k <= |xs| && |FirstOccurrences(xs[..k])| == cap
    ensures Take(FirstOccurrences(xs), cap) == FirstOccurrences(xs[..k])
  {
    OccurrencesGrow(xs, k);
  }

  lemma {:induction false} OccurrencesStep(xs: seq<string>, i: nat)
    requires i < |xs|
    ensures var before := FirstOccurrences(xs[..i]);
      FirstOccurrences(xs[..i + 1]) == if xs[i] == "" || xs[i] in before then before else before + [xs[i]]
  {
    assert xs[..i + 1][..i] == xs[..i];
  }

  lemma {:induction false} OccurrencesGrow(xs: seq<string>, k: nat)
    requires k <= |xs|
    ensures FirstOccurrences(xs[..k]) <= FirstOccurrences(xs)
  {
    if k < |xs| {
      var n := |xs| - 1;
      assert xs[..n][..k] == xs[..k];
      OccurrencesGrow(xs[..n], k);
    } else {
      assert xs[..k] == xs;
    }
  }

  function Position(xs: seq<string>, x: string): (i: nat)
    requires x in xs
    ensures i < |xs| && xs[i] == x && x !in xs[..i]
  {
    if xs[0] == x then 0 else 1 + Position(xs[1..], x)
  }

  lemma PositionUnique(xs: seq<string>, x: string, i: nat)
    requires i < |xs| && xs[i] == x && x !in xs[..i]
    ensures Position(xs, x) == i
  {
    if i > 0 {
      assert xs[..i][0] == xs[0] && xs[1..][..i - 1] == xs[..i][1..];
      PositionUnique(xs[1..], x, i - 1);
    }
  }

  /** The kept candidates are the distinct non-blank ones, in the order in which each first occurs. */
  lemma {:induction false} OccurrencesMean(xs: seq<string>)
    ensures var f := FirstOccurrences(xs);
      && Distinct(f)
      && (forall x :: x in f <==> x in xs && x != "")
      && (forall i, j | 0 <= i < j < |f| :: Position(xs, f[i]) < Position(xs, f[j]))
  {
    if xs != [] {
      var n := |xs| - 1;
      var f := FirstOccurrences(xs);
      OccurrencesMean(xs[..n]);
      assert xs == xs[..n] + [xs[n]];
      forall x | x in xs[..n] ensures Position(xs, x) == Position(xs[..n], x) {
        var i := Position(xs[..n], x);
        assert xs[..n][..i] == xs[..i];
        PositionUnique(xs, x, i);
      }
      if f != FirstOccurrences(xs[..n]) {
        PositionUnique(xs, xs[n], n);
      }
      forall i, j | 0 <= i < j < |f| ensures Position(xs, f[i]) < Position(xs, f[j]) {
        assert f[i] in FirstOccurrences(xs[..n]);
      }
    }
  }
}
