/**
  What the program relies on from `sort.Slice`, `sort.Strings` and `sort.Ints`: the result is a
  permutation of the input that ascends by a key.  Go's sort is not stable, so nothing more is
  assumed about entries whose keys are equal; UniqueSort says when that does not matter.
*/
module Sorting {
  import opened Wrappers

  ghost predicate TotalOrder<K(!new)>(le: (K, K) -> bool) {
    && (forall a, b :: le(a, b) || le(b, a))
    && (forall a, b :: le(a, b) && le(b, a) ==> a == b)
    && (forall a, b, c :: Chains(le, a, b, c))
  }

  /** Transitivity at one triple; naming the triple keeps the solver from chaining on its own. */
  ghost predicate Chains<K>(le: (K, K) -> bool, a: K, b: K, c: K) {
    le(a, b) && le(b, c) ==> le(a, c)
  }

  ghost predicate SortedBy<T, K>(xs: seq<T>, key: T -> K, le: (K, K) -> bool) {
    forall i, j | 0 <= i < j < |xs| :: le(key(xs[i]), key(xs[j]))
  }

  /** `out` is one of the outcomes a sort of `xs` may have. */
  ghost predicate IsSortOf<T, K>(xs: seq<T>, out: seq<T>, key: T -> K, le: (K, K) -> bool) {
    multiset(out) == multiset(xs) && SortedBy(out, key, le)
  }

  /** Entries with the same key are the same entry. */
  ghost predicate KeyedBy<T, K>(xs: seq<T>, key: T -> K) {
    forall i, j | 0 <= i < |xs| && 0 <= j < |xs| && key(xs[i]) == key(xs[j]) :: xs[i] == xs[j]
  }

  ghost predicate Distinct<T>(xs: seq<T>) {
    forall i, j | 0 <= i < j < |xs| :: xs[i] != xs[j]
  }

  function Identity<T>(x: T): T { x }

  function Map<T, R>(f: T -> R, xs: seq<T>): (ys: seq<R>)
    ensures |ys| == |xs|
    ensures forall i | 0 <= i < |xs| :: ys[i] == f(xs[i])
  {
    if xs == [] then [] else [f(xs[0])] + Map(f, xs[1..])
  }

  lemma {:induction false} MembersAgree<T>(xs: seq<T>, ys: seq<T>)
    requires multiset(xs) == multiset(ys)
    ensures |xs| == |ys|
    ensures forall x :: x in xs <==> x in ys
  {
    assert |multiset(xs)| == |xs| && |multiset(ys)| == |ys|;
    forall x
      ensures x in xs <==> x in ys
    {
      assert x in xs <==> x in multiset(xs);
      assert x in ys <==> x in multiset(ys);
    }
  }

  lemma {:induction false} Find<T>(xs: seq<T>, ys: seq<T>, i: nat) returns (j: nat)
    requires multiset(xs) == multiset(ys) && i < |xs|
    ensures j < |ys| && ys[j] == xs[i]
  {
    MembersAgree(xs, ys);
    assert xs[i] in ys;
    j :| j < |ys| && ys[j] == xs[i];
  }

  ghost function Without<T>(xs: seq<T>, i: nat): seq<T>
    requires i < |xs|
  {
    xs[..i] + xs[i + 1..]
  }

  lemma {:induction false} RemoveAt<T>(xs: seq<T>, i: nat)
    requires i < |xs|
    ensures multiset(xs) == multiset{xs[i]} + multiset(Without(xs, i))
  {
    assert xs == xs[..i] + [xs[i]] + xs[i + 1..];
  }

  /** Taking the same entry out of two permutations leaves permutations. */
  lemma {:induction false} RemoveBoth<T>(xs: seq<T>, ys: seq<T>, i: nat, j: nat)
    requires i < |xs| && j < |ys| && xs[i] == ys[j]
    requires multiset(xs) == multiset(ys)
    ensures multiset(Without(xs, i)) == multiset(Without(ys, j))
  {
    RemoveAt(xs, i);
    RemoveAt(ys, j);
    assert multiset(Without(xs, i)) == multiset(xs) - multiset{xs[i]};
    assert multiset(Without(ys, j)) == multiset(ys) - multiset{ys[j]};
  }

  /** When equal keys mean equal entries, every sort of the same entries gives the same list. */
  lemma {:induction false} UniqueSort<T, K(!new)>(xs: seq<T>, ys: seq<T>, key: T -> K, le: (K, K) -> bool)
    requires TotalOrder(le)
    requires multiset(xs) == multiset(ys)
    requires SortedBy(xs, key, le) && SortedBy(ys, key, le)
    requires KeyedBy(xs, key)
    ensures xs == ys
  {
    MembersAgree(xs, ys);
    if xs != [] {
      var j := Find(xs, ys, 0);
      var i := Find(ys, xs, 0);
      assert le(key(ys[0]), key(ys[j])) && le(key(xs[0]), key(xs[i]));
      assert xs[0] == ys[0];
      RemoveBoth(xs, ys, 0, 0);
      assert Without(xs, 0) == xs[1..] && Without(ys, 0) == ys[1..];
      UniqueSort(xs[1..], ys[1..], key, le);
    }
  }

  /** The values that f gives for the entries of xs that have one, in order. */
  function Gather<T, R>(f: T -> Option<R>, xs: seq<T>): seq<R> {
    if xs == [] then [] else (match f(xs[0]) case None => [] case Some(r) => [r]) + Gather(f, xs[1..])
  }

  lemma {:induction false} GatherOne<T, R>(f: T -> Option<R>, x: T)
    ensures Gather(f, [x]) == match f(x) case None => [] case Some(r) => [r]
  {
    assert Gather(f, [x][1..]) == [];
  }

  lemma {:induction false} GatherConcat<T, R>(f: T -> Option<R>, xs: seq<T>, ys: seq<T>)
    ensures Gather(f, xs + ys) == Gather(f, xs) + Gather(f, ys)
  {
    if xs == [] {
      assert xs + ys == ys;
    } else {
      assert (xs + ys)[1..] == xs[1..] + ys;
      GatherConcat(f, xs[1..], ys);
    }
  }

  lemma {:induction false} GatherWithout<T, R>(f: T -> Option<R>, xs: seq<T>, j: nat)
    requires j < |xs|
    ensures multiset(Gather(f, xs)) == multiset(Gather(f, [xs[j]])) + multiset(Gather(f, Without(xs, j)))
  {
    var a, b, c := xs[..j], [xs[j]], xs[j + 1..];
    assert xs == a + (b + c) && Without(xs, j) == a + c;
    GatherConcat(f, a, b + c);
    GatherConcat(f, b, c);
    GatherConcat(f, a, c);
  }

  /** A permutation of the entries gives a permutation of the gathered values. */
  lemma {:induction false} GatherMultiset<T, R>(f: T -> Option<R>, xs: seq<T>, ys: seq<T>)
    requires multiset(xs) == multiset(ys)
    ensures multiset(Gather(f, xs)) == multiset(Gather(f, ys))
  {
    MembersAgree(xs, ys);
    if xs != [] {
      var j := Find(xs, ys, 0);
      RemoveBoth(xs, ys, 0, j);
      GatherMultiset(f, Without(xs, 0), Without(ys, j));
      GatherWithout(f, xs, 0);
      GatherWithout(f, ys, j);
    }
  }

  lemma {:induction false} MapWithout<T, R>(f: T -> R, xs: seq<T>, j: nat)
    requires j < |xs|
    ensures multiset(Map(f, xs)) == multiset{f(xs[j])} + multiset(Map(f, Without(xs, j)))
  {
    RemoveAt(Map(f, xs), j);
    assert Without(Map(f, xs), j) == Map(f, Without(xs, j));
  }

  lemma {:induction false} MapMultiset<T, R>(f: T -> R, xs: seq<T>, ys: seq<T>)
    requires multiset(xs) == multiset(ys)
    ensures multiset(Map(f, xs)) == multiset(Map(f, ys))
  {
    MembersAgree(xs, ys);
    if xs != [] {
      var j := Find(xs, ys, 0);
      RemoveBoth(xs, ys, 0, j);
      MapMultiset(f, Without(xs, 0), Without(ys, j));
      MapWithout(f, xs, 0);
      MapWithout(f, ys, j);
    }
  }

  function CountIf<T>(p: T -> bool, xs: seq<T>): (n: nat)
    ensures n <= |xs|
  {
    if xs == [] then 0 else (if p(xs[0]) then 1 else 0) + CountIf(p, xs[1..])
  }

  lemma {:induction false} CountConcat<T>(p: T -> bool, xs: seq<T>, ys: seq<T>)
    ensures CountIf(p, xs + ys) == CountIf(p, xs) + CountIf(p, ys)
  {
    if xs == [] {
      assert xs + ys == ys;
    } else {
      assert (xs + ys)[1..] == xs[1..] + ys;
      CountConcat(p, xs[1..], ys);
    }
  }

  lemma {:induction false} CountWithout<T>(p: T -> bool, xs: seq<T>, j: nat)
    requires j < |xs|
    ensures CountIf(p, xs) == (if p(xs[j]) then 1 else 0) + CountIf(p, Without(xs, j))
  {
    var a, b, c := xs[..j], [xs[j]], xs[j + 1..];
    assert xs == a + (b + c) && Without(xs, j) == a + c;
    CountConcat(p, a, b + c);
    CountConcat(p, b, c);
    CountConcat(p, a, c);
  }

  lemma {:induction false} CountMultiset<T>(p: T -> bool, xs: seq<T>, ys: seq<T>)
    requires multiset(xs) == multiset(ys)
    ensures CountIf(p, xs) == CountIf(p, ys)
  {
    MembersAgree(xs, ys);
    if xs != [] {
      var j := Find(xs, ys, 0);
      RemoveBoth(xs, ys, 0, j);
      CountMultiset(p, Without(xs, 0), Without(ys, j));
      CountWithout(p, xs, 0);
      CountWithout(p, ys, j);
    }
  }

  lemma {:induction false} DistinctCount<T>(xs: seq<T>, x: T)
    requires Distinct(xs)
    ensures multiset(xs)[x] == if x in xs then 1 else 0
  {
    if xs != [] {
      assert xs == [xs[0]] + xs[1..];
      DistinctCount(xs[1..], x);
    }
  }

  lemma {:induction false} DistinctMultiset<T>(xs: seq<T>, ys: seq<T>)
    requires Distinct(xs) && Distinct(ys)
    requires forall x :: x in xs <==> x in ys
    ensures multiset(xs) == multiset(ys)
  {
    forall x
      ensures multiset(xs)[x] == multiset(ys)[x]
    {
      DistinctCount(xs, x);
      DistinctCount(ys, x);
    }
  }

  /** A strictly ascending list is determined by the set of its members. */
  lemma {:induction false} AscendingUnique<K(!new)>(xs: seq<K>, ys: seq<K>, le: (K, K) -> bool)
    requires TotalOrder(le)
    requires SortedBy(xs, Identity<K>, le) && SortedBy(ys, Identity<K>, le)
    requires Distinct(xs) && Distinct(ys)
    requires forall x :: x in xs <==> x in ys
    ensures xs == ys
  {
    DistinctMultiset(xs, ys);
    UniqueSort(xs, ys, Identity<K>, le);
  }

  lemma {:induction false} SortKeepsDistinct<T>(xs: seq<T>, ys: seq<T>)
    requires multiset(ys) == multiset(xs) && Distinct(xs)
    ensures Distinct(ys)
  {
    forall i, j | 0 <= i < j < |ys| ensures ys[i] != ys[j] {
      if ys[i] == ys[j] {
        RemoveAt(ys, j);
        assert Without(ys, j)[i] == ys[i];
        assert multiset(ys)[ys[i]] >= 2;
        DistinctCount(xs, ys[i]);
      }
    }
  }

  /** Go's `for k := range m`: every key once, in an unspecified order. */
  method RangeOver<T(==)>(s: set<T>) returns (keys: seq<T>)
    ensures Distinct(keys)
    ensures forall x :: x in keys <==> x in s
  {
    var todo := s;
    keys := [];
    while todo != {}
      invariant todo <= s && Distinct(keys)
      invariant forall x :: x in keys <==> x in s && x !in todo
      decreases todo
    {
      var x :| x in todo;
      assert forall i | 0 <= i < |keys| :: keys[i] in keys;
      keys := keys + [x];
      todo := todo - {x};
    }
  }

  /** A stand-in for the library sort; callers see its contract only. */
  method Sort<T, K(!new)>(xs: seq<T>, key: T -> K, le: (K, K) -> bool) returns (out: seq<T>)
    requires TotalOrder(le)
    ensures IsSortOf(xs, out, key, le)
  {
    out := [];
    for n := 0 to |xs|
      invariant IsSortOf(xs[..n], out, key, le)
    {
      assert xs[..n + 1] == xs[..n] + [xs[n]];
      out := Insert(out, xs[n], key, le);
    }
    assert xs[..|xs|] == xs;
  }

  lemma {:induction false} InsertSorted<T, K(!new)>(lo: seq<T>, x: T, hi: seq<T>, key: T -> K, le: (K, K) -> bool)
    requires TotalOrder(le) && SortedBy(lo + hi, key, le)
    requires lo != [] ==> le(key(lo[|lo| - 1]), key(x))
    requires hi != [] ==> le(key(x), key(hi[0]))
    ensures SortedBy(lo + [x] + hi, key, le)
  {
    var all, out, n := lo + hi, lo + [x] + hi, |lo|;
    forall i, j | 0 <= i < j < |out|
      ensures le(key(out[i]), key(out[j]))
    {
      if j < n || n < i || i < n < j {
        var i', j' := if i < n then i else i - 1, if j < n then j else j - 1;
        assert out[i] == all[i'] && out[j] == all[j'];
      } else if i < n {
        assert out[i] == all[i] && out[j] == x;
        assert i == n - 1 || le(key(all[i]), key(all[n - 1]));
        assert Chains(le, key(lo[i]), key(lo[n - 1]), key(x));
      } else {
        assert out[i] == x && out[j] == all[j - 1];
        assert j == n + 1 || le(key(all[n]), key(all[j - 1]));
        assert Chains(le, key(x), key(hi[0]), key(all[j - 1]));
      }
    }
  }

  method Insert<T, K(!new)>(xs: seq<T>, x: T, key: T -> K, le: (K, K) -> bool) returns (out: seq<T>)
    requires TotalOrder(le) && SortedBy(xs, key, le)
    ensures multiset(out) == multiset(xs + [x]) && SortedBy(out, key, le)
  {
    var i := |xs|;
    while i > 0 && !le(key(xs[i - 1]), key(x))
      invariant 0 <= i <= |xs|
      invariant i < |xs| ==> le(key(x), key(xs[i]))
    {
      i := i - 1;
    }
    var lo, hi := xs[..i], xs[i..];
    assert xs == lo + hi;
    InsertSorted(lo, x, hi, key, le);
    InsertMultiset(lo, x, hi);
    out := lo + [x] + hi;
  }

  lemma {:induction false} InsertMultiset<T>(lo: seq<T>, x: T, hi: seq<T>)
    ensures multiset(lo + [x] + hi) == multiset(lo + hi + [x])
  {
  }
}
