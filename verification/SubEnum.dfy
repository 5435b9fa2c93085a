/**
  `EnumerateSubdomains`: two goroutines, each running a pool of its own, add what they found to one
  map under a mutex; the map is then turned into a sorted list.
*/
module SubEnum {
  import opened Sorting
  import opened Text

  datatype SubResult = SubResult(subdomain: string, ips: seq<string>)

  datatype SubEntry = SubEntry(subdomain: string, ips: seq<string>, sources: seq<string>, resolved: bool)

  /** One execution of the closure `add`. */
  datatype Call = Call(fqdn: string, ips: seq<string>, source: string, resolved: bool)

  type Merged = map<string, SubEntry>

  // ---- The merge ----

  /** xs followed by the members of ys it does not contain. */
  function AppendMissing(xs: seq<string>, ys: seq<string>): seq<string>
    decreases |ys|
  {
    if ys == [] then xs else AppendMissing(if ys[0] in xs then xs else xs + [ys[0]], ys[1..])
  }

  function AddCall(m: Merged, c: Call): Merged {
    var e := if c.fqdn in m then m[c.fqdn] else SubEntry(c.fqdn, [], [], false);
    m[c.fqdn := SubEntry(e.subdomain, AppendMissing(e.ips, c.ips), AppendMissing(e.sources, [c.source]),
        e.resolved || c.resolved)]
  }

  function MergeAll(calls: seq<Call>): Merged {
    if calls == [] then map[] else AddCall(MergeAll(calls[..|calls| - 1]), calls[|calls| - 1])
  }

  method ContainsStr(s: seq<string>, v: string) returns (found: bool)
    ensures found <==> v in s
  {
    for i := 0 to |s|
      invariant v !in s[..i]
    {
      if s[i] == v {
        return true;
      }
    }
    return false;
  }

  class Merger {
    var merged: Merged

    constructor ()
      ensures merged == map[]
    {
      merged := map[];
    }

    method Add(fqdn: string, ips: seq<string>, source: string, resolved: bool)
      modifies this
      ensures merged == AddCall(old(merged), Call(fqdn, ips, source, resolved))
    {
      if fqdn !in merged {
        merged := merged[fqdn := SubEntry(fqdn, [], [], false)];
      }
      var e := merged[fqdn];
      ghost var was, found := e, merged;
      var known := ContainsStr(e.sources, source);
      if !known {
        e := e.(sources := e.sources + [source]);
      }
      assert [source][1..] == [];
      assert e.sources == AppendMissing(was.sources, [source]);
      ghost var start := e;
      for i := 0 to |ips|
        invariant e == start.(ips := e.ips) && merged == found
        invariant AppendMissing(e.ips, ips[i..]) == AppendMissing(start.ips, ips)
      {
        var has := ContainsStr(e.ips, ips[i]);
        if !has {
          e := e.(ips := e.ips + [ips[i]]);
        }
      }
      if resolved {
        e := e.(resolved := true);
      }
      merged := merged[fqdn := e];
      assert ips[|ips|..] == [] && e.ips == AppendMissing(was.ips, ips);
      assert e == SubEntry(was.subdomain, AppendMissing(was.ips, ips), AppendMissing(was.sources, [source]),
                           was.resolved || resolved);
      assert merged == old(merged)[fqdn := e];
    }

    /** The loop over the map after both goroutines are done, and the sort of the entries. */
    method Finish() returns (entries: seq<SubEntry>)
      ensures Tabulates(merged, entries)
    {
      StrOrder();
      var names := RangeOver(merged.Keys);
      entries := [];
      for i := 0 to |names|
        invariant |entries| == i
        invariant forall k | 0 <= k < i :: Tidied(merged[names[k]], entries[k])
      {
        var e := merged[names[i]];
        var ips := Sort(e.ips, Identity<string>, StrLe);
        var sources := Sort(e.sources, Identity<string>, StrLe);
        entries := entries + [e.(ips := ips, sources := sources)];
      }
      ghost var unsorted := entries;
      entries := Sort(entries, NameOf, StrLe);
      assert Collected(merged, names, unsorted) && IsSortOf(unsorted, entries, NameOf, StrLe);
    }
  }

  function NameOf(e: SubEntry): string { e.subdomain }

  /** An entry with its addresses and sources sorted. */
  ghost predicate Tidied(e: SubEntry, t: SubEntry) {
    && t == e.(ips := t.ips, sources := t.sources)
    && IsSortOf(e.ips, t.ips, Identity<string>, StrLe)
    && IsSortOf(e.sources, t.sources, Identity<string>, StrLe)
  }

  ghost predicate Collected(m: Merged, names: seq<string>, entries: seq<SubEntry>) {
    && Distinct(names) && (forall n :: n in names <==> n in m)
    && |entries| == |names|
    && forall i | 0 <= i < |names| :: Tidied(m[names[i]], entries[i])
  }

  /** The entries of the map, tidied, in some order, then sorted by name. */
  ghost predicate Tabulates(m: Merged, entries: seq<SubEntry>) {
    exists names: seq<string>, unsorted: seq<SubEntry> :: Collected(m, names, unsorted)
        && IsSortOf(unsorted, entries, NameOf, StrLe)
  }

  // ---- What the answer says about the calls ----

  ghost predicate HasName(calls: seq<Call>, n: string) { exists i | 0 <= i < |calls| :: calls[i].fqdn == n }

  ghost predicate HasIp(calls: seq<Call>, n: string, ip: string) {
    exists i | 0 <= i < |calls| :: calls[i].fqdn == n && ip in calls[i].ips
  }

  ghost predicate HasSource(calls: seq<Call>, n: string, source: string) {
    exists i | 0 <= i < |calls| :: calls[i].fqdn == n && calls[i].source == source
  }

  ghost predicate HasResolved(calls: seq<Call>, n: string) {
    exists i | 0 <= i < |calls| :: calls[i].fqdn == n && calls[i].resolved
  }

  /** Addresses and sources of an entry are the unions over the calls for its name, without repetition. */
  ghost predicate Unions(e: SubEntry, calls: seq<Call>) {
    && Distinct(e.ips) && (forall ip :: ip in e.ips <==> HasIp(calls, e.subdomain, ip))
    && Distinct(e.sources) && (forall s :: s in e.sources <==> HasSource(calls, e.subdomain, s))
    && (e.resolved <==> HasResolved(calls, e.subdomain))
  }

  ghost predicate StrictlyAscending(xs: seq<string>) { Distinct(xs) && SortedBy(xs, Identity<string>, StrLe) }

  /** The answer to a collection of calls. */
  ghost predicate Answers(entries: seq<SubEntry>, calls: seq<Call>) {
    && StrictlyAscending(Map(NameOf, entries))
    && (forall n :: n in Map(NameOf, entries) <==> HasName(calls, n))
    && (forall e | e in entries :: Unions(e, calls) && StrictlyAscending(e.ips) && StrictlyAscending(e.sources))
  }

  lemma {:induction false} OneMoreCall(calls: seq<Call>, c: Call, n: string)
    ensures HasName(calls + [c], n) <==> HasName(calls, n) || c.fqdn == n
    ensures forall ip :: HasIp(calls + [c], n, ip) <==> HasIp(calls, n, ip) || (c.fqdn == n && ip in c.ips)
    ensures forall s :: HasSource(calls + [c], n, s) <==> HasSource(calls, n, s) || (c.fqdn == n && s == c.source)
    ensures HasResolved(calls + [c], n) <==> HasResolved(calls, n) || (c.fqdn == n && c.resolved)
  {
    var all := calls + [c];
    assert all[|calls|] == c;
    assert forall i | 0 <= i < |calls| :: all[i] == calls[i];
  }

  lemma {:induction false} AppendMissingMeans(xs: seq<string>, ys: seq<string>)
    requires Distinct(xs)
    ensures Distinct(AppendMissing(xs, ys))
    ensures forall x :: x in AppendMissing(xs, ys) <==> x in xs || x in ys
    decreases |ys|
  {
    if ys != [] {
      AppendMissingMeans(if ys[0] in xs then xs else xs + [ys[0]], ys[1..]);
    }
  }

  ghost predicate MergeInv(m: Merged, calls: seq<Call>) {
    && (forall n :: n in m <==> HasName(calls, n))
    && (forall n | n in m :: m[n].subdomain == n && Unions(m[n], calls))
  }

  lemma {:induction false} MergeInvStep(m: Merged, calls: seq<Call>, c: Call)
    requires MergeInv(m, calls)
    ensures MergeInv(AddCall(m, c), calls + [c])
  {
    var t := AddCall(m, c);
    forall n ensures n in t <==> HasName(calls + [c], n) {
      OneMoreCall(calls, c, n);
    }
    forall n | n in t ensures t[n].subdomain == n && Unions(t[n], calls + [c]) {
      OneMoreCall(calls, c, n);
      if n == c.fqdn {
        FreshEntry(m, calls, n);
        var e := if n in m then m[n] else SubEntry(n, [], [], false);
        AppendMissingMeans(e.ips, c.ips);
        AppendMissingMeans(e.sources, [c.source]);
      }
    }
  }

  lemma {:induction false} FreshEntry(m: Merged, calls: seq<Call>, n: string)
    requires MergeInv(m, calls)
    ensures n !in m ==> Unions(SubEntry(n, [], [], false), calls)
  {
  }

  lemma {:induction false} MergeKeepsUnions(calls: seq<Call>)
    ensures MergeInv(MergeAll(calls), calls)
  {
    if calls != [] {
      var n := |calls| - 1;
      MergeKeepsUnions(calls[..n]);
      MergeInvStep(MergeAll(calls[..n]), calls[..n], calls[n]);
      assert calls[..n] + [calls[n]] == calls;
    }
  }

  lemma {:induction false} TidyKeepsUnions(e: SubEntry, t: SubEntry, calls: seq<Call>)
    requires Tidied(e, t) && Unions(e, calls)
    ensures Unions(t, calls) && StrictlyAscending(t.ips) && StrictlyAscending(t.sources)
  {
    MembersAgree(t.ips, e.ips);
    MembersAgree(t.sources, e.sources);
    SortKeepsDistinct(e.ips, t.ips);
    SortKeepsDistinct(e.sources, t.sources);
  }

  /** Merging any sequence of calls and finishing gives the answer to those calls. */
  lemma {:induction false} MergeAnswers(calls: seq<Call>, entries: seq<SubEntry>)
    requires Tabulates(MergeAll(calls), entries)
    ensures Answers(entries, calls)
  {
    var m := MergeAll(calls);
    MergeKeepsUnions(calls);
    var names: seq<string>, unsorted: seq<SubEntry> :| Collected(m, names, unsorted)
        && IsSortOf(unsorted, entries, NameOf, StrLe);
    MembersAgree(entries, unsorted);
    CollectedNames(m, calls, names, unsorted);
    SortedNames(unsorted, entries);
    forall e | e in entries ensures Unions(e, calls) && StrictlyAscending(e.ips) && StrictlyAscending(e.sources) {
      assert e in unsorted;
      var i :| 0 <= i < |unsorted| && unsorted[i] == e;
      TidyKeepsUnions(m[names[i]], e, calls);
    }
  }

  lemma {:induction false} CollectedNames(m: Merged, calls: seq<Call>, names: seq<string>, unsorted: seq<SubEntry>)
    requires MergeInv(m, calls) && Collected(m, names, unsorted)
    ensures Map(NameOf, unsorted) == names
  {
    assert forall i | 0 <= i < |names| :: unsorted[i].subdomain == m[names[i]].subdomain;
  }

  lemma {:induction false} SortedNames(unsorted: seq<SubEntry>, entries: seq<SubEntry>)
    requires multiset(entries) == multiset(unsorted) && SortedBy(entries, NameOf, StrLe)
    requires Distinct(Map(NameOf, unsorted))
    ensures StrictlyAscending(Map(NameOf, entries))
    ensures forall n :: n in Map(NameOf, entries) <==> n in Map(NameOf, unsorted)
  {
    MapMultiset(NameOf, entries, unsorted);
    var a, b := Map(NameOf, entries), Map(NameOf, unsorted);
    SortKeepsDistinct(b, a);
    MembersAgree(a, b);
    assert forall i | 0 <= i < |a| :: Identity(a[i]) == NameOf(entries[i]);
  }

  ghost predicate SameCalls(a: seq<Call>, b: seq<Call>) { forall c :: c in a <==> c in b }

  lemma {:induction false} SameFacts(a: seq<Call>, b: seq<Call>, n: string)
    requires forall c :: c in a ==> c in b
    ensures HasName(a, n) ==> HasName(b, n)
    ensures forall ip :: HasIp(a, n, ip) ==> HasIp(b, n, ip)
    ensures forall s :: HasSource(a, n, s) ==> HasSource(b, n, s)
    ensures HasResolved(a, n) ==> HasResolved(b, n)
  {
    assert forall i | 0 <= i < |a| :: a[i] in a;
  }

  lemma {:induction false} SameEntry(e: SubEntry, f: SubEntry, a: seq<Call>, b: seq<Call>)
    requires SameCalls(a, b) && e.subdomain == f.subdomain
    requires Unions(e, a) && StrictlyAscending(e.ips) && StrictlyAscending(e.sources)
    requires Unions(f, b) && StrictlyAscending(f.ips) && StrictlyAscending(f.sources)
    ensures e == f
  {
    StrOrder();
    SameFacts(a, b, e.subdomain);
    SameFacts(b, a, e.subdomain);
    AscendingUnique(e.ips, f.ips, StrLe);
    AscendingUnique(e.sources, f.sources, StrLe);
  }

  /** The answer is determined by the set of calls: neither their order nor repetition matters. */
  lemma {:induction false} MergeConfluence(a: seq<Call>, b: seq<Call>, entries: seq<SubEntry>, other: seq<SubEntry>)
    requires SameCalls(a, b) && Answers(entries, a) && Answers(other, b)
    ensures entries == other
  {
    var xs, ys := Map(NameOf, entries), Map(NameOf, other);
    forall n ensures n in xs <==> n in ys {
      SameFacts(a, b, n);
      SameFacts(b, a, n);
    }
    StrOrder();
    AscendingUnique(xs, ys, StrLe);
    forall i | 0 <= i < |entries| ensures entries[i] == other[i] {
      assert entries[i].subdomain == xs[i] == ys[i] == other[i].subdomain;
      SameEntry(entries[i], other[i], a, b);
    }
  }
}
