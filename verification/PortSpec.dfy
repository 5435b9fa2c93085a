/** `ParsePortSpec` and `TopPorts`: the port lists that ScanPorts is given. */
module PortSpec {
  import opened Wrappers
  import opened Sorting
  import opened Text

  datatype Error = NoPorts | InvalidRange(part: string) | InvalidPort(part: string) | TooMany(max: int)

  datatype Span = Span(lo: int, hi: int)

  predicate ValidSpan(s: Span) { 1 <= s.lo <= s.hi <= 65535 }

  function Range(lo: int, hi: int): (s: set<int>)
    ensures forall p :: p in s <==> lo <= p <= hi
    decreases hi - lo
  {
    if lo > hi then {} else Range(lo, hi - 1) + {hi}
  }

  function PortsOf(s: Span): set<int> { Range(s.lo, s.hi) }

  /** The ports one trimmed, non-blank part names: a number, or two numbers around its first '-'. */
  function ReadPart(part: string): Result<Span, Error> {
    if '-' in part then
      var i := IndexOf(part, '-');
      assert part[..|part|] == part;
      match (Atoi(TrimSpace(part[..i])), Atoi(TrimSpace(part[i + 1..])))
      case (Some(lo), Some(hi)) => if ValidSpan(Span(lo, hi)) then Ok(Span(lo, hi)) else Err(InvalidRange(part))
      case _ => Err(InvalidRange(part))
    else
      match Atoi(part)
      case Some(p) => if ValidSpan(Span(p, p)) then Ok(Span(p, p)) else Err(InvalidPort(part))
      case None => Err(InvalidPort(part))
  }

  /** The set built from the parts on top of `acc`, or the first error met. */
  function Collect(parts: seq<string>, acc: set<int>, max: int): Result<set<int>, Error> {
    if parts == [] then Ok(acc)
    else
      var part := TrimSpace(parts[0]);
      if part == "" then Collect(parts[1..], acc, max)
      else match ReadPart(part)
        case Err(e) => Err(e)
        case Ok(span) =>
          var acc' := acc + PortsOf(span);
          if |acc'| > max then Err(TooMany(max)) else Collect(parts[1..], acc', max)
  }

  function Outcome(spec: string, max: int): Result<set<int>, Error> {
    var s := TrimSpace(spec);
    if s == "" then Err(NoPorts) else Collect(Split(s, ','), {}, max)
  }

  ghost predicate Ascending(ports: seq<int>) {
    forall i, j | 0 <= i < j < |ports| :: ports[i] < ports[j]
  }

  ghost predicate Enumerates(ports: seq<int>, s: set<int>) {
    && Ascending(ports)
    && (forall p :: p in ports <==> p in s)
  }

  method ParsePortSpec(spec: string, maxPorts: int) returns (r: Result<seq<int>, Error>)
    ensures Outcome(spec, maxPorts).Err? ==> r == Err(Outcome(spec, maxPorts).error)
    ensures Outcome(spec, maxPorts).Ok? ==> r.Ok? && Enumerates(r.value, Outcome(spec, maxPorts).value)
  {
    var s := TrimSpace(spec);
    if s == "" {
      return Err(NoPorts);
    }
    var parts := Split(s, ',');
    var ports: set<int> := {};
    for i := 0 to |parts|
      invariant Collect(parts, {}, maxPorts) == Collect(parts[i..], ports, maxPorts)
    {
      var part := TrimSpace(parts[i]);
      if part == "" {
        continue;
      }
      var read := ReadPart(part);
      if read.Err? {
        return Err(read.error);
      }
      ports := AddSpan(ports, read.value);
      if |ports| > maxPorts {
        return Err(TooMany(maxPorts));
      }
    }
    var sorted := SortedPorts(ports);
    r := Ok(sorted);
  }

  /** The inner loop over a range. */
  method AddSpan(ports: set<int>, span: Span) returns (all: set<int>)
    requires ValidSpan(span)
    ensures all == ports + PortsOf(span)
  {
    all := ports;
    var p := span.lo;
    while p <= span.hi
      invariant span.lo <= p <= span.hi + 1
      invariant all == ports + Range(span.lo, p - 1)
    {
      all := all + {p};
      p := p + 1;
    }
  }

  method SortedPorts(s: set<int>) returns (ports: seq<int>)
    ensures Enumerates(ports, s)
  {
    var seen := RangeOver(s);
    ports := Sort(seen, Identity<int>, IntLe);
    SortKeepsDistinct(seen, ports);
    MembersAgree(ports, seen);
    assert forall i, j | 0 <= i < j < |ports| :: IntLe(Identity(ports[i]), Identity(ports[j]));
  }

  const COMMON_PORTS: set<int> := {21, 22, 23, 25, 53, 80, 110, 111, 135, 139, 143, 443, 445, 993, 995,
                                   1433, 1521, 3306, 3389, 5432, 5900, 6379, 8080, 8443, 9200, 27017}

  method TopPorts() returns (ports: seq<int>)
    ensures Enumerates(ports, COMMON_PORTS)
  {
    ports := SortedPorts(COMMON_PORTS);
  }

  // ---- What a specification means ----

  /** The non-blank parts, trimmed. */
  function NonBlank(parts: seq<string>): seq<string> {
    if parts == [] then []
    else
      var part := TrimSpace(parts[0]);
      (if part == "" then [] else [part]) + NonBlank(parts[1..])
  }

  function PartsOf(spec: string): seq<string> { NonBlank(Split(TrimSpace(spec), ',')) }

  ghost predicate AllValid(parts: seq<string>) { forall part | part in parts :: ReadPart(part).Ok? }

  /** The union of the ports named by the valid parts. */
  function Named(parts: seq<string>): set<int> {
    if parts == [] then {}
    else (match ReadPart(parts[0]) case Ok(span) => PortsOf(span) case Err(_) => {}) + Named(parts[1..])
  }

  lemma {:induction false} SubsetSize<T>(a: set<T>, b: set<T>)
    requires a <= b
    ensures |a| <= |b|
  {
    assert b == a + (b - a);
  }

  lemma {:induction false} CollectMeans(parts: seq<string>, acc: set<int>, max: int)
    ensures Collect(parts, acc, max).Ok? <==>
            AllValid(NonBlank(parts)) && (NonBlank(parts) == [] || |acc + Named(NonBlank(parts))| <= max)
    ensures Collect(parts, acc, max).Ok? ==> Collect(parts, acc, max).value == acc + Named(NonBlank(parts))
  {
    if parts != [] {
      var part := TrimSpace(parts[0]);
      var rest := NonBlank(parts[1..]);
      if part == "" {
        CollectMeans(parts[1..], acc, max);
        assert NonBlank(parts) == rest;
      } else {
        var all := NonBlank(parts);
        assert all[0] == part && all[1..] == rest;
        assert AllValid(all) <==> ReadPart(part).Ok? && AllValid(rest);
        if ReadPart(part).Ok? {
          var acc' := acc + PortsOf(ReadPart(part).value);
          assert acc' + Named(rest) == acc + Named(all);
          SubsetSize(acc', acc + Named(all));
          CollectMeans(parts[1..], acc', max);
          assert rest == [] ==> acc' == acc + Named(all);
        }
      }
    }
  }

  /**
    Parsing succeeds exactly when the specification is not blank, every non-blank part is a valid
    port or range and the union has at most maxPorts ports; the result is the union.  The cap is
    looked at only after a non-blank part, so a specification such as "," succeeds with no ports
    under every cap.
  */
  lemma {:induction false} SpecMeansUnion(spec: string, max: int)
    ensures Outcome(spec, max).Ok? <==>
            && TrimSpace(spec) != ""
            && AllValid(PartsOf(spec))
            && (PartsOf(spec) == [] || |Named(PartsOf(spec))| <= max)
    ensures Outcome(spec, max).Ok? ==> Outcome(spec, max).value == Named(PartsOf(spec))
  {
    CollectMeans(Split(TrimSpace(spec), ','), {}, max);
    assert {} + Named(PartsOf(spec)) == Named(PartsOf(spec));
  }

  lemma {:induction false} NamedMembers(parts: seq<string>, p: int)
    ensures p in Named(parts) <==>
            exists i | 0 <= i < |parts| :: ReadPart(parts[i]).Ok? && p in PortsOf(ReadPart(parts[i]).value)
  {
    if parts != [] {
      NamedMembers(parts[1..], p);
      forall i | 1 <= i < |parts| ensures parts[i] == parts[1..][i - 1] {}
    }
  }

  /** Permuting the parts, repeating them or adding blank ones changes nothing. */
  lemma {:induction false} SameParts(spec: string, other: string, max: int)
    requires TrimSpace(spec) != "" && TrimSpace(other) != ""
    requires forall part :: part in PartsOf(spec) <==> part in PartsOf(other)
    ensures Outcome(spec, max).Ok? == Outcome(other, max).Ok?
    ensures Outcome(spec, max).Ok? ==> Outcome(spec, max) == Outcome(other, max)
  {
    SpecMeansUnion(spec, max);
    SpecMeansUnion(other, max);
    var a, b := PartsOf(spec), PartsOf(other);
    assert a == [] <==> b == [] by {
      if a != [] { assert a[0] in b; }
      if b != [] { assert b[0] in a; }
    }
    forall p ensures p in Named(a) <==> p in Named(b) {
      NamedMembers(a, p);
      NamedMembers(b, p);
      SameWitness(a, b, p);
      SameWitness(b, a, p);
    }
    assert Named(a) == Named(b);
  }

  lemma {:induction false} SameWitness(a: seq<string>, b: seq<string>, p: int)
    requires forall part :: part in a ==> part in b
    ensures (exists i | 0 <= i < |a| :: ReadPart(a[i]).Ok? && p in PortsOf(ReadPart(a[i]).value)) ==>
            (exists i | 0 <= i < |b| :: ReadPart(b[i]).Ok? && p in PortsOf(ReadPart(b[i]).value))
  {
    if i :| 0 <= i < |a| && ReadPart(a[i]).Ok? && p in PortsOf(ReadPart(a[i]).value) {
      assert a[i] in b;
      var j :| 0 <= j < |b| && b[j] == a[i];
    }
  }

  /** Two numbers around the first '-', or one number for both ends; from 1 to 65535, the lower first. */
  ghost predicate Denotes(part: string, lo: int, hi: int) {
    && 1 <= lo <= hi <= 65535
    && if '-' !in part then lo == hi && Atoi(part) == Some(lo) else exists i :: DenotesAt(part, i, lo, hi)
  }

  predicate DenotesAt(part: string, i: nat, lo: int, hi: int) {
    && i < |part| && part[i] == '-' && '-' !in part[..i]
    && Atoi(TrimSpace(part[..i])) == Some(lo) && Atoi(TrimSpace(part[i + 1..])) == Some(hi)
  }

  /** Which parts are valid, what they name, and how the others are reported. */
  lemma {:induction false} ReadPartMeans(part: string, lo: int, hi: int)
    ensures ReadPart(part) == Ok(Span(lo, hi)) <==> Denotes(part, lo, hi)
    ensures ReadPart(part).Err? ==> ReadPart(part) == Err(if '-' in part then InvalidRange(part) else InvalidPort(part))
  {
    if '-' in part {
      var k := IndexOf(part, '-');
      assert part[..|part|] == part;
      forall i: nat | DenotesAt(part, i, lo, hi) ensures i == k {
        IndexOfUnique(part, '-', i);
      }
      assert ReadPart(part) == Ok(Span(lo, hi)) ==> DenotesAt(part, k, lo, hi);
    }
  }

  // ---- Rendering ----

  /** A span with lo == hi may be written as a number or as a range. */
  datatype Item = One(port: int) | Between(lo: int, hi: int)

  function ItemSpan(item: Item): Span {
    match item case One(p) => Span(p, p) case Between(lo, hi) => Span(lo, hi)
  }

  function RenderItem(item: Item): string {
    match item case One(p) => Itoa(p) case Between(lo, hi) => Itoa(lo) + "-" + Itoa(hi)
  }

  function Render(items: seq<Item>): string
    requires items != []
  {
    Join(Map(RenderItem, items), ',')
  }

  function Covered(items: seq<Item>): set<int> {
    if items == [] then {} else PortsOf(ItemSpan(items[0])) + Covered(items[1..])
  }

  lemma {:induction false} ReadRendered(item: Item)
    requires ValidSpan(ItemSpan(item))
    ensures ReadPart(RenderItem(item)) == Ok(ItemSpan(item))
    ensures RenderItem(item) != "" && TrimSpace(RenderItem(item)) == RenderItem(item)
    ensures ',' !in RenderItem(item)
    ensures Graphic(RenderItem(item)[0]) && Graphic(RenderItem(item)[|RenderItem(item)| - 1])
  {
    match item {
      case One(p) =>
        AtoiItoa(p);
        NumberShape(p);
      case Between(lo, hi) =>
        ReadRange(lo, hi);
    }
    TrimGraphic(RenderItem(item));
  }

  lemma {:induction false} NumberShape(n: nat)
    ensures var s := Itoa(n);
      && '-' !in s && ',' !in s && Graphic(s[0]) && Graphic(s[|s| - 1]) && TrimSpace(s) == s
  {
    var s := Decimal(n);
    assert s[0] in s && s[|s| - 1] in s;
    TrimGraphic(s);
  }

  lemma {:induction false} ReadRange(lo: nat, hi: nat)
    requires ValidSpan(Span(lo, hi))
    ensures var s := Itoa(lo) + "-" + Itoa(hi);
      ReadPart(s) == Ok(Span(lo, hi)) && ',' !in s && Graphic(s[0]) && Graphic(s[|s| - 1])
  {
    NumberShape(lo);
    NumberShape(hi);
    AtoiItoa(lo);
    AtoiItoa(hi);
    ReadRangeText(Itoa(lo), Itoa(hi), Span(lo, hi));
  }

  lemma {:induction false} ReadRangeText(a: string, b: string, span: Span)
    requires a != [] && b != [] && '-' !in a && TrimSpace(a) == a && TrimSpace(b) == b
    requires Atoi(a) == Some(span.lo) && Atoi(b) == Some(span.hi) && ValidSpan(span)
    ensures ReadPart(a + "-" + b) == Ok(span)
    ensures (a + "-" + b)[0] == a[0] && (a + "-" + b)[|a| + |b|] == b[|b| - 1]
  {
    var s := a + "-" + b;
    assert s[|a|] == '-' && s[..|a|] == a && s[|a| + 1..] == b;
    IndexOfUnique(s, '-', |a|);
  }

  lemma {:induction false} RenderedParts(items: seq<Item>)
    requires items != [] && forall item | item in items :: ValidSpan(ItemSpan(item))
    ensures NonBlank(Map(RenderItem, items)) == Map(RenderItem, items)
    ensures AllValid(Map(RenderItem, items))
    ensures Named(Map(RenderItem, items)) == Covered(items)
    ensures Graphic(Render(items)[0]) && Graphic(Render(items)[|Render(items)| - 1])
    ensures forall i | 0 <= i < |items| :: ',' !in Map(RenderItem, items)[i]
  {
    ReadRendered(items[0]);
    var texts := Map(RenderItem, items);
    assert texts[1..] == Map(RenderItem, items[1..]);
    if |items| > 1 {
      RenderedParts(items[1..]);
    }
  }

  /** Every rendering of a non-empty list of ports as numbers and ranges parses back to those ports. */
  lemma {:induction false} RenderRoundTrip(items: seq<Item>, max: int)
    requires items != [] && forall item | item in items :: ValidSpan(ItemSpan(item))
    ensures Outcome(Render(items), max).Ok? <==> |Covered(items)| <= max
    ensures Outcome(Render(items), max).Ok? ==> Outcome(Render(items), max).value == Covered(items)
  {
    RenderedParts(items);
    TrimGraphic(Render(items));
    SplitJoin(Map(RenderItem, items), ',');
    SpecMeansUnion(Render(items), max);
  }
}
