/**
  The cache as a memo table for external lookups.  Every lookup stores its answer under a key built
  from its kind and its arguments and reads it back with a type assertion.
*/
module Memo {
  import opened Wrappers
  import opened Text
  import opened Cache
  import opened Validate

  datatype Kind = DnsRecords | WhoisRecord | WaybackList | GeoInfo | SubdomainList

  datatype Query =
    | Dns(domain: string)
    | Whois(domain: string, raw: bool)
    | Wayback(domain: string, limit: int)
    | Geo(ip: string)
    | Passive(domain: string)

  /** The dynamic type of what is stored, and what it holds. */
  datatype Value<P> = Value(kind: Kind, payload: P)

  function KindOf(q: Query): Kind {
    match q
    case Dns(_) => DnsRecords
    case Whois(_, _) => WhoisRecord
    case Wayback(_, _) => WaybackList
    case Geo(_) => GeoInfo
    case Passive(_) => SubdomainList
  }

  const SECOND := 1_000_000_000

  function Ttl(k: Kind): int {
    match k
    case DnsRecords => 60 * SECOND
    case SubdomainList => 10 * 60 * SECOND
    case WhoisRecord => 6 * 3600 * SECOND
    case WaybackList => 3600 * SECOND
    case GeoInfo => 24 * 3600 * SECOND
  }

  function KeyHead(q: Query): string {
    match q
    case Dns(_) => "dns"
    case Whois(_, _) => "whois"
    case Wayback(_, _) => "wb"
    case Geo(_) => "ip"
    case Passive(_) => "ct"
  }

  function KeyTail(q: Query): string {
    match q
    case Dns(d) => d
    case Whois(d, raw) => if raw then d + ":raw" else d
    case Wayback(d, limit) => d + ":" + Itoa(limit)
    case Geo(ip) => ip
    case Passive(d) => d
  }

  function Key(q: Query): string { KeyHead(q) + ":" + KeyTail(q) }

  /** The limit WaybackURLs uses for a requested one. */
  function WaybackLimit(limit: int): (used: int)
    ensures 1 <= used <= 5000 && (used == limit || (!(1 <= limit <= 5000) && used == 1000))
  {
    if limit <= 0 || limit > 5000 then 1000 else limit
  }

  /** The domain of a query comes out of ValidateDomain. */
  ghost predicate Validated(q: Query) {
    q.Geo? || exists lower: string -> string, raw :: ValidateDomain(lower, raw) == Ok(q.domain)
  }

  lemma {:induction false} ValidatedNoColon(q: Query)
    requires Validated(q) && !q.Geo?
    ensures ':' !in q.domain
  {
    var lower: string -> string, raw :| ValidateDomain(lower, raw) == Ok(q.domain);
    ValidatedAlphabet(lower, raw);
  }

  lemma {:induction false} CutAtColon(a: string, b: string)
    requires ':' !in a
    ensures IndexOf(a + ":" + b, ':') == |a|
    ensures (a + ":" + b)[..|a|] == a && (a + ":" + b)[|a| + 1..] == b
  {
    var s := a + ":" + b;
    assert s[..|a|] == a && s[|a| + 1..] == b;
    IndexOfUnique(s, ':', |a|);
  }

  lemma {:induction false} SameHalves(a: string, b: string, c: string, d: string)
    requires ':' !in a && ':' !in c && a + ":" + b == c + ":" + d
    ensures a == c && b == d
  {
    CutAtColon(a, b);
    CutAtColon(c, d);
  }

  lemma {:induction false} HeadNoColon(q: Query)
    ensures ':' !in KeyHead(q)
  {
  }

  lemma {:induction false} SameParts(p: Query, q: Query)
    requires Key(p) == Key(q)
    ensures KindOf(p) == KindOf(q) && KeyTail(p) == KeyTail(q)
  {
    HeadNoColon(p);
    HeadNoColon(q);
    SameHalves(KeyHead(p), KeyTail(p), KeyHead(q), KeyTail(q));
    HeadDeterminesKind(p, q);
  }

  /** Different lookups never share a key. */
  lemma {:induction false} KeyInjective(p: Query, q: Query)
    requires Validated(p) && Validated(q) && Key(p) == Key(q)
    ensures p == q
  {
    SameParts(p, q);
    if p.Whois? || p.Wayback? {
      ValidatedNoColon(p);
      ValidatedNoColon(q);
      if p.Whois? {
        RawTail(p, q);
      } else {
        LimitTail(p, q);
      }
    }
  }

  lemma {:induction false} HeadDeterminesKind(p: Query, q: Query)
    requires KeyHead(p) == KeyHead(q)
    ensures KindOf(p) == KindOf(q)
  {
    var h, g := KeyHead(p), KeyHead(q);
    assert |h| == |g| && h[0] == g[0];
  }

  lemma {:induction false} LimitTail(p: Query, q: Query)
    requires p.Wayback? && q.Wayback? && ':' !in p.domain && ':' !in q.domain && KeyTail(p) == KeyTail(q)
    ensures p == q
  {
    SameHalves(p.domain, Itoa(p.limit), q.domain, Itoa(q.limit));
    ItoaInjective(p.limit, q.limit);
  }

  lemma {:induction false} RawTail(p: Query, q: Query)
    requires p.Whois? && q.Whois? && ':' !in p.domain && ':' !in q.domain && KeyTail(p) == KeyTail(q)
    ensures p == q
  {
    if p.raw {
      assert KeyTail(p)[|p.domain|] == ':';
    }
    if q.raw {
      assert KeyTail(q)[|q.domain|] == ':';
    }
    if p.raw && q.raw {
      assert p.domain + ":raw" == p.domain + ":" + "raw" && q.domain + ":raw" == q.domain + ":" + "raw";
      SameHalves(p.domain, "raw", q.domain, "raw");
    }
  }

  // ---- Lookups through the cache ----

  /** `cacheGet`: the payload, if the cache has a value and the value has the expected type. */
  function TypedGet<P>(enabled: bool, result: Option<Value<P>>, expected: Kind): Option<P> {
    if enabled && result.Some? && result.value.kind == expected then Some(result.value.payload) else None
  }

  /** The Set with which a lookup records a fetched answer. */
  predicate Fetches<P>(e: Event<Value<P>>, q: Query) {
    e.Sets? && e.key == Key(q) && e.value.kind == KindOf(q) && e.ttl == Ttl(KindOf(q))
  }

  /** Every Set of a run records an answer fetched for some validated query. */
  ghost predicate OnlyFetches<P>(es: seq<At<Value<P>>>) {
    forall i | 0 <= i < |es| && es[i].ev.Sets? :: exists q :: Validated(q) && Fetches(es[i].ev, q)
  }

  /**
    In every interleaving of lookups a hit for a query has the type the lookup asserts, and its
    payload is one that an earlier fetch stored for that very query, at most its TTL ago.
  */
  lemma {:induction false} HitAnswersQuery<P>(es: seq<At<Value<P>>>, r: nat, j: nat, id: nat, q: Query) returns (w: nat)
    requires Ordered(es) && OnlyFetches(es) && Validated(q)
    requires GetAt(es, r, j, id, Key(q)) && ResultOf(Run(es), id).Some? && ResultOf(Run(es), id).value.Some?
    ensures w < r && Fetches(es[w].ev, q)
    ensures es[j].time - es[w].time <= 1_000_000_000 *
              match q
              case Dns(_) => 60
              case Passive(_) => 600
              case Whois(_, _) => 21600
              case Wayback(_, _) => 3600
              case Geo(_) => 86400
    ensures TypedGet(true, ResultOf(Run(es), id).value, KindOf(q)) == Some(es[w].ev.value.payload)
    ensures forall p | Validated(p) && Fetches(es[w].ev, p) :: p == q
  {
    GetExact(es, r, j, id, Key(q));
    w := LastSetAt(es[..r], Key(q));
    assert es[..r][w] == es[w];
    var p :| Validated(p) && Fetches(es[w].ev, p);
    KeyInjective(p, q);
    forall p | Validated(p) && Fetches(es[w].ev, p) ensures p == q {
      KeyInjective(p, q);
    }
  }
}
