/**
  The per-IP rate limiter: a map of token buckets, one per client address, from which a sweep drops
  the addresses that have been idle for more than three minutes.  A bucket starts full, refills at
  `rps` tokens a second up to `burst`, and a denied request leaves it as it was.  Time and tokens
  are real numbers.
*/
module RateLimiter {

  datatype Bucket = Bucket(tokens: real, last: real)

  datatype Visitor = Visitor(limiter: Bucket, lastSeen: real)

  datatype Config = Config(rps: real, burst: int)

  type Visitors = map<string, Visitor>

  const IDLE_SECONDS := 180.0

  function Min(a: real, b: real): real { if a <= b then a else b }

  /** Tokens a bucket has at `now`. */
  function Level(c: Config, b: Bucket, now: real): real {
    Min(c.burst as real, b.tokens + c.rps * (if now < b.last then 0.0 else now - b.last))
  }

  function Full(c: Config, now: real): Bucket { Bucket(c.burst as real, now) }

  /** One token is taken if there is one; otherwise the bucket does not change. */
  function Allow(c: Config, b: Bucket, now: real): (Bucket, bool) {
    var level := Level(c, b, now);
    if level >= 1.0 then (Bucket(level - 1.0, now), true) else (b, false)
  }

  /** A request: `get` followed by `Allow`, at one instant. */
  function Request(c: Config, vs: Visitors, ip: string, now: real): (Visitors, bool) {
    var b := if ip in vs then vs[ip].limiter else Full(c, now);
    var (b', ok) := Allow(c, b, now);
    (vs[ip := Visitor(b', now)], ok)
  }

  predicate Idle(v: Visitor, now: real) { now - v.lastSeen > IDLE_SECONDS }

  function Sweep(vs: Visitors, now: real): Visitors {
    map ip | ip in vs && !Idle(vs[ip], now) :: vs[ip]
  }

  class IpRateLimiter {
    var visitors: Visitors
    const config: Config

    constructor (c: Config)
      ensures visitors == map[] && config == c
    {
      visitors := map[];
      config := c;
    }

    /** Looks the limiter of an address up, creating a full one if there is none. */
    method Get(ip: string, now: real) returns (limiter: Bucket)
      modifies this
      ensures limiter == if ip in old(visitors) then old(visitors)[ip].limiter else Full(config, now)
      ensures visitors == old(visitors)[ip := Visitor(limiter, now)]
    {
      if ip !in visitors {
        limiter := Full(config, now);
        visitors := visitors[ip := Visitor(limiter, now)];
        return;
      }
      limiter := visitors[ip].limiter;
      visitors := visitors[ip := Visitor(limiter, now)];
    }

    /** The middleware: whether a request of `ip` at `now` passes. */
    method Admit(ip: string, now: real) returns (ok: bool)
      modifies this
      ensures (visitors, ok) == Request(config, old(visitors), ip, now)
    {
      var limiter := Get(ip, now);
      var level := Level(config, limiter, now);
      ok := level >= 1.0;
      if ok {
        visitors := visitors[ip := visitors[ip].(limiter := Bucket(level - 1.0, now))];
        assert visitors == old(visitors)[ip := Visitor(Bucket(level - 1.0, now), now)];
      }
    }

    /** One round of the cleanup loop: visits every address and deletes the idle ones. */
    method Cleanup(now: real)
      modifies this
      ensures visitors == Sweep(old(visitors), now)
    {
      var todo := visitors.Keys;
      while todo != {}
        invariant todo <= visitors.Keys <= old(visitors).Keys
        invariant forall ip :: ip in visitors <==> ip in old(visitors) && (ip in todo || !Idle(old(visitors)[ip], now))
        invariant forall ip :: ip in visitors ==> visitors[ip] == old(visitors)[ip]
        decreases todo
      {
        var ip :| ip in todo;
        if Idle(visitors[ip], now) {
          visitors := visitors - {ip};
        }
        todo := todo - {ip};
      }
    }
  }

  // ---- Runs ----

  datatype Event = Asks(ip: string, at: real) | Sweeps(at: real)

  /** Events happen at nondecreasing times. */
  ghost predicate Timed(es: seq<Event>) {
    forall i, j | 0 <= i <= j < |es| :: es[i].at <= es[j].at
  }

  function Step(c: Config, vs: Visitors, e: Event): (Visitors, bool) {
    match e
    case Asks(ip, at) => Request(c, vs, ip, at)
    case Sweeps(at) => (Sweep(vs, at), false)
  }

  /** The visitors after a run, and for every event whether it admitted a request. */
  function Run(c: Config, es: seq<Event>): (r: (Visitors, seq<bool>))
    ensures |r.1| == |es|
  {
    if es == [] then (map[], [])
    else
      var n := |es| - 1;
      var (vs, ds) := Run(c, es[..n]);
      var (vs', d) := Step(c, vs, es[n]);
      (vs', ds + [d])
  }

  // ---- The limiter that never forgets ----

  type Buckets = map<string, Bucket>

  function BucketOf(c: Config, bs: Buckets, ip: string, now: real): Bucket {
    if ip in bs then bs[ip] else Full(c, now)
  }

  function KeepStep(c: Config, bs: Buckets, e: Event): (Buckets, bool) {
    match e
    case Asks(ip, at) => var (b, ok) := Allow(c, BucketOf(c, bs, ip, at), at); (bs[ip := b], ok)
    case Sweeps(_) => (bs, false)
  }

  function KeepRun(c: Config, es: seq<Event>): (r: (Buckets, seq<bool>))
    ensures |r.1| == |es|
  {
    if es == [] then (map[], [])
    else
      var n := |es| - 1;
      var (bs, ds) := KeepRun(c, es[..n]);
      var (bs', d) := KeepStep(c, bs, es[n]);
      (bs', ds + [d])
  }

  // ---- Arithmetic of a bucket ----

  lemma {:induction false} Scale(r: real, x: real, y: real)
    requires r > 0.0 && x <= y
    ensures r * x <= r * y
    ensures r * y - r * x == r * (y - x)
    ensures r * (y - x) >= 0.0
  {
  }

  /** Waiting adds at most rps tokens a second. */
  lemma {:induction false} LevelGrows(c: Config, b: Bucket, t: real, u: real)
    requires c.rps > 0.0 && t <= u
    ensures Level(c, b, t) <= Level(c, b, u) <= Level(c, b, t) + c.rps * (u - t)
  {
    var dt, du := if t < b.last then 0.0 else t - b.last, if u < b.last then 0.0 else u - b.last;
    Scale(c.rps, dt, du);
    Scale(c.rps, du - dt, u - t);
    Scale(c.rps, 0.0, u - t);
  }

  /** A bucket as the limiter keeps it: never over-full, and not below empty. */
  predicate BucketOk(c: Config, b: Bucket, now: real) {
    && b.tokens <= c.burst as real
    && (c.burst >= 0 ==> b.tokens >= 0.0)
    && (c.burst < 0 ==> b.tokens == c.burst as real)
    && b.last <= now
  }

  lemma {:induction false} AllowOk(c: Config, b: Bucket, now: real)
    requires c.rps > 0.0 && BucketOk(c, b, now)
    ensures BucketOk(c, Allow(c, b, now).0, now)
    ensures c.burst >= 0 ==> Level(c, b, now) >= 0.0
    ensures Level(c, Allow(c, b, now).0, now) == Level(c, b, now) - (if Allow(c, b, now).1 then 1.0 else 0.0)
  {
    Scale(c.rps, 0.0, now - b.last);
  }

  // ---- Forgetting is unobservable ----

  /** A bucket that has had time to refill is as good as a new one. */
  predicate Refilled(c: Config, b: Bucket, now: real) { Level(c, b, now) == c.burst as real }

  /** Buckets that give the same answers from `now` on. */
  predicate Alike(c: Config, a: Bucket, b: Bucket, now: real) {
    a == b || (Refilled(c, a, now) && Refilled(c, b, now))
  }

  ghost predicate Simulates(c: Config, vs: Visitors, bs: Buckets, now: real) {
    && vs.Keys <= bs.Keys
    && (forall ip | ip in bs :: BucketOk(c, bs[ip], now))
    && (forall ip | ip in vs :: VisitorOk(c, vs[ip], bs[ip], now))
    && (forall ip | ip in bs && ip !in vs :: Refilled(c, bs[ip], now))
  }

  predicate VisitorOk(c: Config, v: Visitor, b: Bucket, now: real) {
    Alike(c, v.limiter, b, now) && b.last <= v.lastSeen <= now
  }

  lemma {:induction false} StaysRefilled(c: Config, b: Bucket, now: real, later: real)
    requires c.rps > 0.0 && now <= later && Refilled(c, b, now)
    ensures Refilled(c, b, later)
  {
    LevelGrows(c, b, now, later);
  }

  lemma {:induction false} Later(c: Config, vs: Visitors, bs: Buckets, now: real, later: real)
    requires c.rps > 0.0 && now <= later && Simulates(c, vs, bs, now)
    ensures Simulates(c, vs, bs, later)
  {
    forall ip | ip in bs && Refilled(c, bs[ip], now) ensures Refilled(c, bs[ip], later) {
      StaysRefilled(c, bs[ip], now, later);
    }
    forall ip | ip in vs ensures VisitorOk(c, vs[ip], bs[ip], later) {
      if Refilled(c, vs[ip].limiter, now) {
        StaysRefilled(c, vs[ip].limiter, now, later);
      }
    }
  }

  /** Alike buckets decide alike and stay alike. */
  lemma {:induction false} AllowAlike(c: Config, a: Bucket, b: Bucket, now: real)
    requires Alike(c, a, b, now)
    ensures Allow(c, a, now).1 == Allow(c, b, now).1
    ensures Alike(c, Allow(c, a, now).0, Allow(c, b, now).0, now)
  {
  }

  lemma {:induction false} RequestSimulated(c: Config, vs: Visitors, bs: Buckets, ip: string, at: real)
    requires c.rps > 0.0 && Simulates(c, vs, bs, at)
    ensures Step(c, vs, Asks(ip, at)).1 == KeepStep(c, bs, Asks(ip, at)).1
    ensures Simulates(c, Step(c, vs, Asks(ip, at)).0, KeepStep(c, bs, Asks(ip, at)).0, at)
  {
    var a := if ip in vs then vs[ip].limiter else Full(c, at);
    var b := BucketOf(c, bs, ip, at);
    assert Refilled(c, Full(c, at), at) by {
      Scale(c.rps, 0.0, 0.0);
    }
    assert BucketOk(c, b, at) && Alike(c, a, b, at);
    AllowAlike(c, a, b, at);
    AllowOk(c, b, at);
  }

  /** A visitor idle for long enough to be dropped has refilled, if burst <= 180 rps. */
  lemma {:induction false} IdleRefilled(c: Config, v: Visitor, b: Bucket, now: real)
    requires c.rps > 0.0 && c.burst as real <= 180.0 * c.rps
    requires BucketOk(c, b, now) && VisitorOk(c, v, b, now) && Idle(v, now)
    ensures Refilled(c, b, now)
  {
    if v.limiter == b {
      Scale(c.rps, IDLE_SECONDS, now - b.last);
    }
  }

  lemma {:induction false} SweepSimulated(c: Config, vs: Visitors, bs: Buckets, at: real)
    requires c.rps > 0.0 && c.burst as real <= IDLE_SECONDS * c.rps && Simulates(c, vs, bs, at)
    ensures Simulates(c, Sweep(vs, at), bs, at)
  {
    forall ip | ip in bs && ip !in Sweep(vs, at) ensures Refilled(c, bs[ip], at) {
      if ip in vs {
        IdleRefilled(c, vs[ip], bs[ip], at);
      }
    }
  }

  lemma {:induction false} RunSimulated(c: Config, es: seq<Event>)
    requires c.rps > 0.0 && c.burst as real <= 180.0 * c.rps && Timed(es)
    ensures Run(c, es).1 == KeepRun(c, es).1
    ensures es != [] ==> Simulates(c, Run(c, es).0, KeepRun(c, es).0, es[|es| - 1].at)
  {
    if es != [] {
      var n := |es| - 1;
      RunSimulated(c, es[..n]);
      var vs, bs := Run(c, es[..n]).0, KeepRun(c, es[..n]).0;
      if n > 0 {
        Later(c, vs, bs, es[n - 1].at, es[n].at);
      }
      match es[n] {
        case Asks(ip, at) => RequestSimulated(c, vs, bs, ip, at);
        case Sweeps(at) => SweepSimulated(c, vs, bs, at);
      }
    }
  }

  // ---- The rate bound ----

  /** Requests of `ip` admitted at times within [from, to]. */
  function Admitted(es: seq<Event>, ds: seq<bool>, ip: string, from: real, to: real): nat
    requires |es| == |ds|
  {
    if es == [] then 0
    else
      var n := |es| - 1;
      Admitted(es[..n], ds[..n], ip, from, to) + (if Counts(es[n], ds[n], ip, from, to) then 1 else 0)
  }

  ghost predicate KeepOk(c: Config, bs: Buckets, now: real) { forall ip | ip in bs :: BucketOk(c, bs[ip], now) }

  lemma {:induction false} KeepRunOk(c: Config, es: seq<Event>, now: real)
    requires c.rps > 0.0 && Timed(es) && (es != [] ==> es[|es| - 1].at <= now)
    ensures KeepOk(c, KeepRun(c, es).0, now)
  {
    if es != [] {
      var n := |es| - 1;
      KeepRunOk(c, es[..n], es[n].at);
      var bs := KeepRun(c, es[..n]).0;
      if es[n].Asks? {
        AllowOk(c, BucketOf(c, bs, es[n].ip, es[n].at), es[n].at);
      }
    }
  }

  function LevelOf(c: Config, bs: Buckets, ip: string, now: real): real {
    Level(c, BucketOf(c, bs, ip, now), now)
  }

  lemma {:induction false} LevelOfGrows(c: Config, bs: Buckets, ip: string, t: real, u: real)
    requires c.rps > 0.0 && t <= u
    ensures LevelOf(c, bs, ip, u) <= c.burst as real
    ensures LevelOf(c, bs, ip, u) <= LevelOf(c, bs, ip, t) + c.rps * (u - t)
  {
    LevelGrows(c, BucketOf(c, bs, ip, t), t, u);
    Scale(c.rps, 0.0, u - t);
    Scale(c.rps, 0.0, 0.0);
  }

  predicate Counts(e: Event, admitted: bool, ip: string, from: real, to: real) {
    admitted && e.Asks? && e.ip == ip && from <= e.at <= to
  }

  /** An admitted request takes one token of its address; nothing else changes a level. */
  lemma {:induction false} StepLevel(c: Config, bs: Buckets, e: Event, ip: string, to: real)
    requires c.rps > 0.0 && KeepOk(c, bs, e.at) && e.at <= to
    ensures
      var (bs', d) := KeepStep(c, bs, e);
      LevelOf(c, bs', ip, e.at) == LevelOf(c, bs, ip, e.at) - (if Counts(e, d, ip, e.at, to) then 1.0 else 0.0)
  {
    if e.Asks? {
      Scale(c.rps, 0.0, 0.0);
      AllowOk(c, BucketOf(c, bs, e.ip, e.at), e.at);
    }
  }

  /** What has been admitted since `from`, and what is left, is at most the burst and the refill. */
  lemma {:induction false} Conservation(c: Config, es: seq<Event>, ip: string, from: real, now: real)
    requires c.rps > 0.0 && c.burst >= 0 && from <= now
    requires Timed(es) && (es != [] ==> es[|es| - 1].at <= now)
    ensures Admitted(es, KeepRun(c, es).1, ip, from, now) as real + LevelOf(c, KeepRun(c, es).0, ip, now)
            <= c.burst as real + c.rps * (now - from)
  {
    if es == [] || es[|es| - 1].at < from {
      NoneBefore(es, KeepRun(c, es).1, ip, from, now);
      AtMostFull(c, KeepRun(c, es).0, ip, from, now);
    } else {
      var n := |es| - 1;
      var t := es[n].at;
      var (bs, ds) := KeepRun(c, es[..n]);
      Conservation(c, es[..n], ip, from, t);
      KeepRunOk(c, es[..n], t);
      StepLevel(c, bs, es[n], ip, now);
      LastAdmitted(c, es, ip, from, now);
      LevelOfGrows(c, KeepRun(c, es).0, ip, t, now);
      Balance(c, from, t, now, Admitted(es[..n], ds, ip, from, t), LevelOf(c, bs, ip, t),
              Counts(es[n], KeepStep(c, bs, es[n]).1, ip, t, now), LevelOf(c, KeepRun(c, es).0, ip, now));
    }
  }

  lemma {:induction false} AtMostFull(c: Config, bs: Buckets, ip: string, from: real, now: real)
    requires c.rps > 0.0 && from <= now
    ensures LevelOf(c, bs, ip, now) <= c.burst as real + c.rps * (now - from)
  {
    LevelOfGrows(c, bs, ip, now, now);
    Scale(c.rps, from, now);
  }

  lemma {:induction false} Balance(c: Config, from: real, t: real, now: real, admitted: nat, level: real, taken: bool,
                                   level': real)
    requires c.rps > 0.0 && from <= t <= now
    requires admitted as real + level <= c.burst as real + c.rps * (t - from)
    requires level' <= level - (if taken then 1.0 else 0.0) + c.rps * (now - t)
    ensures (admitted + if taken then 1 else 0) as real + level' <= c.burst as real + c.rps * (now - from)
  {
    Scale(c.rps, t - from, now - from);
  }

  lemma {:induction false} LastAdmitted(c: Config, es: seq<Event>, ip: string, from: real, now: real)
    requires es != [] && Timed(es) && from <= es[|es| - 1].at <= now
    ensures
      var n := |es| - 1;
      var (bs, ds) := KeepRun(c, es[..n]);
      Admitted(es, KeepRun(c, es).1, ip, from, now)
        == Admitted(es[..n], ds, ip, from, es[n].at)
           + if Counts(es[n], KeepStep(c, bs, es[n]).1, ip, es[n].at, now) then 1 else 0
  {
    var n := |es| - 1;
    var ds := KeepRun(c, es[..n]).1;
    assert KeepRun(c, es).1[..n] == ds;
    AdmittedUpTo(es[..n], ds, ip, from, es[n].at, now);
  }

  lemma {:induction false} NoneBefore(es: seq<Event>, ds: seq<bool>, ip: string, from: real, to: real)
    requires |es| == |ds| && Timed(es) && (es != [] ==> es[|es| - 1].at < from)
    ensures Admitted(es, ds, ip, from, to) == 0
  {
    if es != [] {
      var n := |es| - 1;
      NoneBefore(es[..n], ds[..n], ip, from, to);
    }
  }

  lemma {:induction false} AdmittedUpTo(es: seq<Event>, ds: seq<bool>, ip: string, from: real, last: real, to: real)
    requires |es| == |ds| && Timed(es) && (es != [] ==> es[|es| - 1].at <= last) && last <= to
    ensures Admitted(es, ds, ip, from, last) == Admitted(es, ds, ip, from, to)
  {
    if es != [] {
      var n := |es| - 1;
      AdmittedUpTo(es[..n], ds[..n], ip, from, last, to);
    }
  }

  lemma {:induction false} DecisionsGrow(c: Config, es: seq<Event>)
    requires es != []
    ensures KeepRun(c, es).1[..|es| - 1] == KeepRun(c, es[..|es| - 1]).1
  {
  }

  /** Events after the window do not matter. */
  lemma {:induction false} CutToWindow(c: Config, es: seq<Event>, ip: string, from: real, to: real) returns (k: nat)
    requires Timed(es)
    ensures k <= |es| && (k > 0 ==> es[k - 1].at <= to)
    ensures Admitted(es, KeepRun(c, es).1, ip, from, to) == Admitted(es[..k], KeepRun(c, es[..k]).1, ip, from, to)
  {
    var n := |es| - 1;
    if es != [] && es[n].at > to {
      k := CutToWindow(c, es[..n], ip, from, to);
      DecisionsGrow(c, es);
      assert es[..n][..k] == es[..k];
    } else {
      k := |es|;
      assert es[..k] == es;
    }
  }

  lemma {:induction false} LevelNonNegative(c: Config, bs: Buckets, ip: string, now: real)
    requires c.rps > 0.0 && c.burst >= 0 && KeepOk(c, bs, now)
    ensures LevelOf(c, bs, ip, now) >= 0.0
  {
    Scale(c.rps, 0.0, 0.0);
    AllowOk(c, BucketOf(c, bs, ip, now), now);
  }

  lemma {:induction false} KeepRateBound(c: Config, es: seq<Event>, ip: string, from: real, to: real)
    requires c.rps > 0.0 && c.burst >= 0 && from <= to && Timed(es)
    ensures Admitted(es, KeepRun(c, es).1, ip, from, to) as real <= c.burst as real + c.rps * (to - from)
  {
    var k := CutToWindow(c, es, ip, from, to);
    Conservation(c, es[..k], ip, from, to);
    KeepRunOk(c, es[..k], to);
    LevelNonNegative(c, KeepRun(c, es[..k]).0, ip, to);
  }

  // ---- When a request is admitted ----

  /** One more request would stay within the burst and the refill of the window that starts at `from`. */
  predicate Fits(c: Config, es: seq<Event>, ds: seq<bool>, ip: string, from: real, at: real)
    requires |es| == |ds|
  {
    (Admitted(es, ds, ip, from, at) + 1) as real <= c.burst as real + c.rps * (at - from)
  }

  /** In the window since the bucket was last full, burst and refill have all been admitted or are left. */
  lemma {:induction false} TightWindow(c: Config, es: seq<Event>, ip: string, now: real) returns (from: real)
    requires c.rps > 0.0 && c.burst >= 0
    requires Timed(es) && (es != [] ==> es[|es| - 1].at <= now)
    ensures Tight(c, AdmittedBy(c, es, ip, from, now), LevelBy(c, es, ip, now), from, now)
  {
    if LevelBy(c, es, ip, now) == c.burst as real {
      from := now;
      FullNow(c, es, ip, now);
    } else {
      FullLevel(c, ip, now);
      from := TightWindow(c, es[..|es| - 1], ip, es[|es| - 1].at);
      TightLast(c, es, ip, from, now);
    }
  }

  lemma {:induction false} FullNow(c: Config, es: seq<Event>, ip: string, now: real)
    requires LevelBy(c, es, ip, now) == c.burst as real
    ensures Tight(c, AdmittedBy(c, es, ip, now, now), LevelBy(c, es, ip, now), now, now)
  {
    assert c.rps * (now - now) == 0.0;
  }

  lemma {:induction false} TightLast(c: Config, es: seq<Event>, ip: string, from: real, now: real)
    requires c.rps > 0.0 && es != [] && Timed(es) && es[|es| - 1].at <= now
    requires LevelBy(c, es, ip, now) != c.burst as real
    requires var before, t := es[..|es| - 1], es[|es| - 1].at;
      Tight(c, AdmittedBy(c, before, ip, from, t), LevelBy(c, before, ip, t), from, t)
    ensures Tight(c, AdmittedBy(c, es, ip, from, now), LevelBy(c, es, ip, now), from, now)
  {
    var before, t := es[..|es| - 1], es[|es| - 1].at;
    var taken := LastEvent(c, es, ip, from, now);
    TightStep(c, from, t, now, AdmittedBy(c, before, ip, from, t), LevelBy(c, before, ip, t), taken,
              LevelBy(c, es, ip, now));
  }

  /** The last event takes a token or none, and the bucket refills until now. */
  lemma {:induction false} LastEvent(c: Config, es: seq<Event>, ip: string, from: real, now: real) returns (taken: nat)
    requires c.rps > 0.0 && es != [] && Timed(es) && from <= es[|es| - 1].at <= now
    requires LevelBy(c, es, ip, now) != c.burst as real
    ensures var before, t := es[..|es| - 1], es[|es| - 1].at;
      && AdmittedBy(c, es, ip, from, now) == AdmittedBy(c, before, ip, from, t) + taken
      && LevelBy(c, es, ip, now) >= LevelBy(c, before, ip, t) - taken as real + c.rps * (now - t)
  {
    taken := Taken(c, es, ip, now);
    AdmittedAfter(c, es, ip, from, now);
    LevelAt(c, es, ip, now);
    LevelAfter(c, es, ip, now);
  }

  predicate Tight(c: Config, admitted: nat, level: real, from: real, now: real) {
    from <= now && admitted as real + level >= c.burst as real + c.rps * (now - from)
  }

  lemma {:induction false} TightStep(c: Config, from: real, t: real, now: real, admitted: nat, level: real, taken: nat,
                                     level': real)
    requires t <= now && Tight(c, admitted, level, from, t)
    requires level' >= level - taken as real + c.rps * (now - t)
    ensures Tight(c, admitted + taken, level', from, now)
  {
    Spread(c, from, t, now);
  }

  /** One if the last event is a request of the address that is admitted. */
  function Taken(c: Config, es: seq<Event>, ip: string, now: real): nat
    requires es != []
  {
    var n := |es| - 1;
    if Counts(es[n], KeepStep(c, KeepRun(c, es[..n]).0, es[n]).1, ip, es[n].at, now) then 1 else 0
  }

  function AdmittedBy(c: Config, es: seq<Event>, ip: string, from: real, now: real): nat {
    Admitted(es, KeepRun(c, es).1, ip, from, now)
  }

  function LevelBy(c: Config, es: seq<Event>, ip: string, now: real): real { LevelOf(c, KeepRun(c, es).0, ip, now) }

  lemma {:induction false} AdmittedAfter(c: Config, es: seq<Event>, ip: string, from: real, now: real)
    requires es != [] && Timed(es) && from <= es[|es| - 1].at <= now
    ensures AdmittedBy(c, es, ip, from, now)
            == AdmittedBy(c, es[..|es| - 1], ip, from, es[|es| - 1].at) + Taken(c, es, ip, now)
  {
    LastAdmitted(c, es, ip, from, now);
  }

  /** The level just after the last event. */
  lemma {:induction false} LevelAt(c: Config, es: seq<Event>, ip: string, now: real)
    requires c.rps > 0.0 && es != [] && Timed(es) && es[|es| - 1].at <= now
    ensures var t := es[|es| - 1].at;
      LevelBy(c, es, ip, t) == LevelBy(c, es[..|es| - 1], ip, t) - Taken(c, es, ip, now) as real
  {
    var n := |es| - 1;
    KeepRunOk(c, es[..n], es[n].at);
    StepLevel(c, KeepRun(c, es[..n]).0, es[n], ip, now);
  }

  lemma {:induction false} LevelAfter(c: Config, es: seq<Event>, ip: string, now: real)
    requires c.rps > 0.0 && es != [] && Timed(es) && es[|es| - 1].at <= now
    requires LevelBy(c, es, ip, now) != c.burst as real
    ensures LevelBy(c, es, ip, now) >= LevelBy(c, es, ip, es[|es| - 1].at) + c.rps * (now - es[|es| - 1].at)
  {
    KeepRunOk(c, es, es[|es| - 1].at);
    LaterLevel(c, KeepRun(c, es).0, ip, es[|es| - 1].at, now);
  }

  lemma {:induction false} LaterLevel(c: Config, bs: Buckets, ip: string, t: real, now: real)
    requires c.rps > 0.0 && t <= now && KeepOk(c, bs, t) && LevelOf(c, bs, ip, now) != c.burst as real
    ensures LevelOf(c, bs, ip, now) >= LevelOf(c, bs, ip, t) + c.rps * (now - t)
  {
    LevelUncapped(c, BucketOf(c, bs, ip, t), BucketOf(c, bs, ip, now), t, now);
  }

  lemma {:induction false} FullLevel(c: Config, ip: string, now: real)
    requires c.rps > 0.0
    ensures LevelOf(c, map[], ip, now) == c.burst as real
  {
    assert c.rps * (now - now) == 0.0;
  }

  lemma {:induction false} Spread(c: Config, from: real, t: real, now: real)
    ensures c.rps * (t - from) + c.rps * (now - t) == c.rps * (now - from)
  {
  }

  /** A bucket that is not full has refilled at rps tokens a second. */
  lemma {:induction false} LevelUncapped(c: Config, b: Bucket, later: Bucket, t: real, now: real)
    requires c.rps > 0.0 && t <= now && b.last <= t && b.tokens <= c.burst as real
    requires later == b || (later == Full(c, now) && b == Full(c, t))
    requires Level(c, later, now) != c.burst as real
    ensures Level(c, later, now) >= Level(c, b, t) + c.rps * (now - t)
  {
    Scale(c.rps, t - b.last, now - b.last);
    Spread(c, b.last, t, now);
    assert c.rps * (now - now) == 0.0;
  }

  lemma {:induction false} KeepAdmitsIff(c: Config, es: seq<Event>, ip: string, at: real)
    requires c.rps > 0.0 && Timed(es + [Asks(ip, at)])
    ensures KeepRun(c, es + [Asks(ip, at)]).1[|es|] <==>
            forall from | from <= at :: Fits(c, es, KeepRun(c, es).1, ip, from, at)
  {
    var (bs, ds) := KeepRun(c, es);
    var ok := LevelOf(c, bs, ip, at) >= 1.0;
    LastAsks(es, ip, at);
    KeepDecision(c, es, ip, at);
    LevelOfGrows(c, bs, ip, at, at);
    if ok {
      forall from | from <= at ensures Fits(c, es, ds, ip, from, at) {
        Conservation(c, es, ip, from, at);
      }
    } else if c.burst < 0 {
      assert c.rps * (at - at) == 0.0;
      assert !Fits(c, es, ds, ip, at, at);
    } else {
      var tight := TightWindow(c, es, ip, at);
      assert !Fits(c, es, ds, ip, tight, at);
    }
  }

  lemma {:induction false} LastAsks(es: seq<Event>, ip: string, at: real)
    requires Timed(es + [Asks(ip, at)])
    ensures Timed(es) && (es != [] ==> es[|es| - 1].at <= at)
  {
    var all := es + [Asks(ip, at)];
    assert forall i | 0 <= i < |es| :: all[i] == es[i];
    assert all[|es|].at == at;
  }

  lemma {:induction false} KeepDecision(c: Config, es: seq<Event>, ip: string, at: real)
    ensures KeepRun(c, es + [Asks(ip, at)]).1[|es|] == (LevelOf(c, KeepRun(c, es).0, ip, at) >= 1.0)
  {
    assert (es + [Asks(ip, at)])[..|es|] == es;
  }

  /** A burst below one admits nothing. */
  lemma {:induction false} NothingAdmitted(c: Config, es: seq<Event>, ip: string, from: real, to: real)
    requires c.burst <= 0
    ensures Admitted(es, Run(c, es).1, ip, from, to) == 0
  {
    if es != [] {
      var n := |es| - 1;
      NothingAdmitted(c, es[..n], ip, from, to);
      assert Run(c, es).1[..n] == Run(c, es[..n]).1;
    }
  }

  /** What a client may expect of a rate limit: a window admits at most the burst and the refill. */
  ghost predicate Bounded(c: Config, es: seq<Event>, ip: string, from: real, to: real) {
    Admitted(es, Run(c, es).1, ip, from, to) as real
    <= (if c.burst < 0 then 0 else c.burst) as real + c.rps * (to - from)
  }

  /**
    In every run, sweeps included, at most burst + rps * (to - from) requests of an address are
    admitted in a window, provided burst <= 180 rps.
  */
  lemma {:induction false} RateBound(c: Config, es: seq<Event>, ip: string, from: real, to: real)
    requires c.rps > 0.0 && c.burst as real <= 180.0 * c.rps
    requires from <= to && Timed(es)
    ensures Bounded(c, es, ip, from, to)
  {
    if c.burst < 0 {
      NothingAdmitted(c, es, ip, from, to);
      Scale(c.rps, from, to);
    } else {
      RunSimulated(c, es);
      KeepRateBound(c, es, ip, from, to);
    }
  }

  /**
    The limiter admits exactly the requests it may: after any run, sweeps included, a request is
    admitted if and only if in every window that ends with it the admitted requests of its address,
    this one included, stay within burst and refill; provided burst <= 180 rps.
  */
  lemma {:induction false} AdmitsIff(c: Config, es: seq<Event>, ip: string, at: real)
    requires c.rps > 0.0 && c.burst as real <= 180.0 * c.rps
    requires Timed(es + [Asks(ip, at)])
    ensures Run(c, es + [Asks(ip, at)]).1[|es|] <==>
            forall from | from <= at :: Fits(c, es, Run(c, es).1, ip, from, at)
  {
    var all := es + [Asks(ip, at)];
    assert all[..|es|] == es;
    assert forall i | 0 <= i < |es| :: all[i] == es[i];
    RunSimulated(c, all);
    RunSimulated(c, es);
    KeepAdmitsIff(c, es, ip, at);
  }

  // ---- The condition is exact ----

  /** n requests of one address at one instant. */
  function Volley(ip: string, at: real, n: nat): (es: seq<Event>)
    ensures |es| == n && forall i | 0 <= i < n :: es[i] == Asks(ip, at)
  {
    seq(n, _ => Asks(ip, at))
  }

  ghost predicate AllTrue(ds: seq<bool>) { forall i | 0 <= i < |ds| :: ds[i] }

  /** A request at the instant of the last one, or of an unknown address, while tokens are left. */
  lemma {:induction false} TakeOne(c: Config, vs: Visitors, ip: string, at: real, taken: nat)
    requires c.rps > 0.0 && taken < c.burst
    requires if taken == 0 then ip !in vs else ip in vs && vs[ip].limiter == Bucket((c.burst - taken) as real, at)
    ensures Request(c, vs, ip, at).1
    ensures Request(c, vs, ip, at).0 == vs[ip := Visitor(Bucket((c.burst - taken - 1) as real, at), at)]
  {
    assert c.rps * 0.0 == 0.0;
  }

  lemma {:induction false} OneMore(ds: seq<bool>, ds': seq<bool>, k: nat)
    requires k <= |ds| && AllTrue(ds[k..]) && ds' == ds + [true]
    ensures ds'[..k] == ds[..k] && AllTrue(ds'[k..])
  {
    assert ds'[k..] == ds[k..] + [true];
  }

  /** A full limiter, present or not, admits a volley of `burst` requests. */
  lemma {:induction false} VolleyAdmitted(c: Config, es: seq<Event>, ip: string, at: real, n: nat)
    requires c.rps > 0.0 && n <= c.burst && ip !in Run(c, es).0
    ensures
      var (vs, ds) := Run(c, es + Volley(ip, at, n));
      && ds[..|es|] == Run(c, es).1 && AllTrue(ds[|es|..])
      && (n > 0 ==> ip in vs && vs[ip] == Visitor(Bucket((c.burst - n) as real, at), at))
      && (n == 0 ==> ip !in vs)
  {
    var all := es + Volley(ip, at, n);
    if n == 0 {
      assert all == es;
    } else {
      VolleyAdmitted(c, es, ip, at, n - 1);
      var before := es + Volley(ip, at, n - 1);
      assert all[..|all| - 1] == before && all[|all| - 1] == Asks(ip, at);
      TakeOne(c, Run(c, before).0, ip, at, n - 1);
      OneMore(Run(c, before).1, Run(c, all).1, |es|);
    }
  }

  /** Two volleys of `burst` requests `gap` seconds apart, with a sweep just before the second. */
  function TwoVolleys(c: Config, ip: string, gap: real): seq<Event>
    requires c.burst >= 0
  {
    Volley(ip, 0.0, c.burst) + [Sweeps(gap)] + Volley(ip, gap, c.burst)
  }

  lemma {:induction false} SweepForgets(c: Config, ip: string, gap: real)
    requires c.rps > 0.0 && c.burst > 0 && gap > IDLE_SECONDS
    ensures var (vs, ds) := Run(c, Volley(ip, 0.0, c.burst) + [Sweeps(gap)]);
      ip !in vs && |ds| == c.burst + 1 && AllTrue(ds[..c.burst])
  {
    var first := Volley(ip, 0.0, c.burst);
    VolleyAdmitted(c, [], ip, 0.0, c.burst);
    assert [] + first == first;
    assert (first + [Sweeps(gap)])[..c.burst] == first;
    var ds := Run(c, first).1;
    assert ds[0..] == ds;
  }

  /** Both volleys pass the limiter that forgets. */
  lemma {:induction false} BothVolleysPass(c: Config, ip: string, gap: real)
    requires c.rps > 0.0 && c.burst > 0 && gap > IDLE_SECONDS
    ensures Timed(TwoVolleys(c, ip, gap))
    ensures Admitted(TwoVolleys(c, ip, gap), Run(c, TwoVolleys(c, ip, gap)).1, ip, 0.0, gap) == 2 * c.burst
  {
    var es := TwoVolleys(c, ip, gap);
    var before := Volley(ip, 0.0, c.burst) + [Sweeps(gap)];
    var ds := Run(c, es).1;
    SweepForgets(c, ip, gap);
    VolleyAdmitted(c, before, ip, gap, c.burst);
    assert es == before + Volley(ip, gap, c.burst);
    assert AllTrue(ds[..c.burst]) by {
      assert ds[..c.burst] == ds[..|before|][..c.burst];
    }
    assert ds[..c.burst + 1][..c.burst] == ds[..c.burst];
    BothVolleysCounted(c, ip, gap, ds);
  }

  /**
    If there is no time to refill in between, this is more than the limiter that never forgets
    admits, and more than the burst and the refill.
  */
  lemma {:induction false} ForgettingShows(c: Config, ip: string, gap: real)
    requires c.rps > 0.0 && c.burst > 0 && 180.0 < gap && c.rps * gap < c.burst as real
    ensures Timed(TwoVolleys(c, ip, gap))
    ensures var es := TwoVolleys(c, ip, gap);
      && Admitted(es, Run(c, es).1, ip, 0.0, gap) > Admitted(es, KeepRun(c, es).1, ip, 0.0, gap)
      && Admitted(es, Run(c, es).1, ip, 0.0, gap) as real > c.burst as real + c.rps * gap
  {
    BothVolleysPass(c, ip, gap);
    KeepRateBound(c, TwoVolleys(c, ip, gap), ip, 0.0, gap);
    assert c.rps * (gap - 0.0) == c.rps * gap;
  }

  lemma {:induction false} BothVolleysCounted(c: Config, ip: string, gap: real, ds: seq<bool>)
    requires c.burst > 0 && gap > 0.0 && |ds| == 2 * c.burst + 1
    requires AllTrue(ds[..c.burst + 1][..c.burst]) && AllTrue(ds[c.burst + 1..])
    ensures Admitted(TwoVolleys(c, ip, gap), ds, ip, 0.0, gap) == 2 * c.burst
  {
    var before := Volley(ip, 0.0, c.burst) + [Sweeps(gap)];
    FirstVolleyCounted(c.burst, ip, gap, ds[..c.burst + 1]);
    CountVolley(before, ds, ip, gap, c.burst, 0.0, gap);
  }

  lemma {:induction false} FirstVolleyCounted(n: nat, ip: string, gap: real, ds: seq<bool>)
    requires |ds| == n + 1 && AllTrue(ds[..n]) && gap > 0.0
    ensures Admitted(Volley(ip, 0.0, n) + [Sweeps(gap)], ds, ip, 0.0, gap) == n
  {
    var first := Volley(ip, 0.0, n);
    assert (first + [Sweeps(gap)])[..n] == first;
    assert [] + first == first && ds[..n][0..] == ds[..n];
    CountVolley([], ds[..n], ip, 0.0, n, 0.0, gap);
  }

  lemma {:induction false} CountVolley(es: seq<Event>, ds: seq<bool>, ip: string, at: real, n: nat, from: real,
                                       to: real)
    requires |ds| == |es| + n && AllTrue(ds[|es|..]) && from <= at <= to
    ensures Admitted(es + Volley(ip, at, n), ds, ip, from, to) == Admitted(es, ds[..|es|], ip, from, to) + n
  {
    var all := es + Volley(ip, at, n);
    if n == 0 {
      assert all == es && ds[..|es|] == ds;
    } else {
      var ds' := ds[..|ds| - 1];
      assert all[..|all| - 1] == es + Volley(ip, at, n - 1);
      assert ds'[..|es|] == ds[..|es|] && ds[|es|..][..n - 1] == ds'[|es|..];
      assert ds[|ds| - 1] == ds[|es|..][n - 1];
      CountVolley(es, ds', ip, at, n - 1, from, to);
    }
  }

  /** A sweep at a time when a bucket emptied at 0 is idle but has not refilled. */
  lemma {:induction false} GapExists(c: Config) returns (gap: real)
    requires c.rps > 0.0 && c.burst as real > IDLE_SECONDS * c.rps
    ensures IDLE_SECONDS < gap && c.rps * gap < c.burst as real
  {
    var full := c.burst as real / c.rps;
    assert full > IDLE_SECONDS;
    gap := (IDLE_SECONDS + full) / 2.0;
    Scale(c.rps, gap, full);
  }

  /** Dropping idle addresses never changes a decision if and only if burst <= 180 rps. */
  lemma {:induction false} EvictionUnobservable(c: Config)
    requires c.rps > 0.0
    ensures (forall es | Timed(es) :: Run(c, es).1 == KeepRun(c, es).1) <==> c.burst as real <= 180.0 * c.rps
  {
    if c.burst as real <= IDLE_SECONDS * c.rps {
      forall es | Timed(es) ensures Run(c, es).1 == KeepRun(c, es).1 {
        RunSimulated(c, es);
      }
    } else {
      assert c.burst > 0;
      var gap := GapExists(c);
      ForgettingShows(c, "ip", gap);
      var es := TwoVolleys(c, "ip", gap);
      assert Run(c, es).1 != KeepRun(c, es).1;
    }
  }

  ghost predicate AlwaysBounded(c: Config) {
    forall es, ip, from, to | from <= to && Timed(es) :: Bounded(c, es, ip, from, to)
  }

  /** The rate bound holds in all runs, for all addresses and windows, if and only if burst <= 180 rps. */
  lemma {:induction false} RateBoundIff(c: Config)
    requires c.rps > 0.0
    ensures AlwaysBounded(c) <==> c.burst as real <= 180.0 * c.rps
  {
    if c.burst as real <= IDLE_SECONDS * c.rps {
      forall es, ip, from, to | from <= to && Timed(es) ensures Bounded(c, es, ip, from, to) {
        RateBound(c, es, ip, from, to);
      }
    } else {
      assert c.burst > 0;
      var gap := GapExists(c);
      ForgettingShows(c, "ip", gap);
      assert c.rps * (gap - 0.0) == c.rps * gap;
      assert !Bounded(c, TwoVolleys(c, "ip", gap), "ip", 0.0, gap);
    }
  }

  // ---- What a sweep leaves ----

  ghost predicate AskedWithin(es: seq<Event>, ip: string, now: real, seconds: real) {
    exists i | 0 <= i < |es| :: es[i].Asks? && es[i].ip == ip && now - es[i].at <= seconds
  }

  ghost predicate SeenOk(es: seq<Event>, vs: Visitors) {
    && (forall ip | ip in vs :: exists i | 0 <= i < |es| :: es[i] == Asks(ip, vs[ip].lastSeen))
    && (forall i | 0 <= i < |es| && es[i].Asks? && es[|es| - 1].at - es[i].at <= IDLE_SECONDS ::
          es[i].ip in vs && es[i].at <= vs[es[i].ip].lastSeen)
  }

  lemma {:induction false} RunSeen(c: Config, es: seq<Event>)
    requires Timed(es)
    ensures SeenOk(es, Run(c, es).0)
  {
    if es != [] {
      var n := |es| - 1;
      RunSeen(c, es[..n]);
      SeenStep(c, es, Run(c, es[..n]).0);
    }
  }

  lemma {:induction false} SeenStep(c: Config, es: seq<Event>, before: Visitors)
    requires es != [] && Timed(es) && SeenOk(es[..|es| - 1], before)
    ensures SeenOk(es, Step(c, before, es[|es| - 1]).0)
  {
    var n := |es| - 1;
    var vs := Step(c, before, es[n]).0;
    forall ip | ip in vs ensures exists i | 0 <= i < |es| :: es[i] == Asks(ip, vs[ip].lastSeen) {
      if es[n].Asks? && es[n].ip == ip {
        assert es[n] == Asks(ip, vs[ip].lastSeen);
      } else {
        var i :| 0 <= i < n && es[..n][i] == Asks(ip, before[ip].lastSeen);
        assert es[i] == Asks(ip, vs[ip].lastSeen);
      }
    }
    forall i | 0 <= i < |es| && es[i].Asks? && es[n].at - es[i].at <= IDLE_SECONDS
      ensures es[i].ip in vs && es[i].at <= vs[es[i].ip].lastSeen
    {
      if i < n {
        assert es[..n][i] == es[i];
      }
    }
  }

  /** Right after a sweep the map holds exactly the addresses that asked in the last 180 seconds. */
  lemma {:induction false} SweepKeepsRecent(c: Config, es: seq<Event>, now: real)
    requires Timed(es + [Sweeps(now)])
    ensures
      var vs := Run(c, es + [Sweeps(now)]).0;
      && (forall ip :: ip in vs <==> AskedWithin(es, ip, now, 180.0))
      && (forall ip | ip in vs :: now - vs[ip].lastSeen <= 180.0)
  {
    var all := es + [Sweeps(now)];
    var vs := Run(c, all).0;
    RunSeen(c, all);
    assert all[..|es|] == es;
    forall ip ensures ip in vs <==> AskedWithin(es, ip, now, IDLE_SECONDS) {
      if ip in vs {
        var i :| 0 <= i < |all| && all[i] == Asks(ip, vs[ip].lastSeen);
        assert es[i] == all[i];
      }
      if AskedWithin(es, ip, now, IDLE_SECONDS) {
        var i :| 0 <= i < |es| && es[i].Asks? && es[i].ip == ip && now - es[i].at <= IDLE_SECONDS;
        assert all[i] == es[i];
      }
    }
  }
}
