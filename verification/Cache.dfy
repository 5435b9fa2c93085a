/**
  The TTL cache.  `Get` is three separate pieces: reading the map, comparing the expiry with the
  clock, and counting; the janitor is two: reading the clock, and sweeping.  Between the pieces
  anything may happen.  Times are in nanoseconds.
*/
module Cache {
  import opened Wrappers

  datatype Entry<V> = Entry(value: V, expires: int)

  type Items<V> = map<string, Entry<V>>

  function Lookup<V>(items: Items<V>, key: string): Option<Entry<V>> {
    if key in items then Some(items[key]) else None
  }

  /** What a Get that has read `found` returns when the clock shows `now`. */
  function Judge<V>(found: Option<Entry<V>>, now: int): Option<V> {
    if found.Some? && now <= found.value.expires then Some(found.value.value) else None
  }

  predicate Expired<V>(e: Entry<V>, now: int) { now > e.expires }

  function Swept<V>(items: Items<V>, now: int): Items<V> {
    map k | k in items && !Expired(items[k], now) :: items[k]
  }

  class Cache<V> {
    var items: Items<V>
    var hits: nat
    var misses: nat

    constructor ()
      ensures items == map[] && hits == 0 && misses == 0
    {
      items := map[];
      hits, misses := 0, 0;
    }

    /** First piece of Get, under the read lock. */
    method Read(key: string) returns (found: Option<Entry<V>>)
      ensures found == Lookup(items, key)
    {
      if key in items {
        return Some(items[key]);
      }
      return None;
    }

    /** Last piece of Get, under the write lock. */
    method Count(hit: bool)
      modifies this`hits, this`misses
      ensures hits == old(hits) + (if hit then 1 else 0) && misses == old(misses) + (if hit then 0 else 1)
    {
      if hit {
        hits := hits + 1;
      } else {
        misses := misses + 1;
      }
    }

    /** The three pieces without interference; `now` is what the clock shows in between. */
    method Get(key: string, now: int) returns (result: Option<V>)
      modifies this`hits, this`misses
      ensures result == Judge(Lookup(items, key), now)
      ensures hits == old(hits) + (if result.Some? then 1 else 0)
      ensures misses == old(misses) + (if result.Some? then 0 else 1)
    {
      var e := Read(key);
      if e.None? || now > e.value.expires {
        Count(false);
        return None;
      }
      Count(true);
      return Some(e.value.value);
    }

    method Set(key: string, value: V, ttl: int, now: int)
      modifies this`items
      ensures items == old(items)[key := Entry(value, now + ttl)]
    {
      items := items[key := Entry(value, now + ttl)];
    }

    /** The janitor's loop over the map. */
    method Sweep(now: int)
      modifies this`items
      ensures items == Swept(old(items), now)
    {
      var todo := items.Keys;
      while todo != {}
        invariant todo <= items.Keys <= old(items).Keys
        invariant forall k :: k in items <==> k in old(items) && (k in todo || !Expired(old(items)[k], now))
        invariant forall k :: k in items ==> items[k] == old(items)[k]
        decreases todo
      {
        var k :| k in todo;
        if now > items[k].expires {
          items := items - {k};
        }
        todo := todo - {k};
      }
    }

    method Stats() returns (h: nat, m: nat, size: nat)
      ensures h == hits && m == misses && size == |items|
    {
      return hits, misses, |items|;
    }
  }

  // ---- Interleavings ----

  datatype Event<V> =
    | GetReads(id: nat, key: string) | GetJudges(id: nat) | GetCounts(id: nat)
    | Sets(key: string, value: V, ttl: int)
    | JanitorLooks | JanitorSweeps

  datatype At<V> = At(time: int, ev: Event<V>)

  datatype Get<V> = Reading(found: Option<Entry<V>>) | Judged(result: Option<V>) | Counted(result: Option<V>)

  /** `looked` is the time the janitor has read for its next sweep. */
  datatype State<V> = State(items: Items<V>, gets: map<nat, Get<V>>, looked: Option<int>, hits: nat, misses: nat)

  function Init<V>(): State<V> { State(map[], map[], None, 0, 0) }

  /** One piece; a piece that cannot come next for its Get or for the janitor does nothing. */
  function Step<V>(s: State<V>, a: At<V>): State<V> {
    match a.ev
    case GetReads(id, key) => if id in s.gets then s else s.(gets := s.gets[id := Reading(Lookup(s.items, key))])
    case GetJudges(id) =>
      if id in s.gets && s.gets[id].Reading? then
        s.(gets := s.gets[id := Judged(Judge(s.gets[id].found, a.time))])
      else s
    case GetCounts(id) =>
      if id in s.gets && s.gets[id].Judged? then
        var r := s.gets[id].result;
        s.(gets := s.gets[id := Counted(r)],
           hits := s.hits + (if r.Some? then 1 else 0), misses := s.misses + (if r.Some? then 0 else 1))
      else s
    case Sets(key, value, ttl) => s.(items := s.items[key := Entry(value, a.time + ttl)])
    case JanitorLooks => s.(looked := Some(a.time))
    case JanitorSweeps => if s.looked.Some? then s.(items := Swept(s.items, s.looked.value), looked := None) else s
  }

  function Run<V>(es: seq<At<V>>): State<V> {
    if es == [] then Init() else Step(Run(es[..|es| - 1]), es[|es| - 1])
  }

  ghost predicate Ordered<V>(es: seq<At<V>>) { forall i, j | 0 <= i <= j < |es| :: es[i].time <= es[j].time }

  /** The entry written by the latest Set of a key, whether or not it has been swept since. */
  function LastSet<V>(es: seq<At<V>>, key: string): Option<Entry<V>> {
    if es == [] then None
    else
      var a := es[|es| - 1];
      if a.ev.Sets? && a.ev.key == key then Some(Entry(a.ev.value, a.time + a.ev.ttl))
      else LastSet(es[..|es| - 1], key)
  }

  // ---- A Get is exact for the instant it reads the map ----

  /** The map has the latest entry of a key, or has lost one that had expired by `now`. */
  ghost predicate Faithful<V>(found: Option<Entry<V>>, last: Option<Entry<V>>, now: int) {
    found == last || (found.None? && last.Some? && Expired(last.value, now))
  }

  ghost predicate ItemsFaithful<V>(s: State<V>, es: seq<At<V>>, now: int) {
    && (s.looked.Some? ==> s.looked.value <= now)
    && forall k :: Faithful(Lookup(s.items, k), LastSet(es, k), now)
  }

  lemma {:induction false} FaithfulStep<V>(s: State<V>, es: seq<At<V>>, a: At<V>, before: int)
    requires ItemsFaithful(s, es, before) && before <= a.time
    ensures ItemsFaithful(Step(s, a), es + [a], a.time)
  {
    var t := Step(s, a);
    assert (es + [a])[..|es|] == es;
    forall k ensures Faithful(Lookup(t.items, k), LastSet(es + [a], k), a.time) {
      assert Faithful(Lookup(s.items, k), LastSet(es, k), before);
    }
  }

  lemma {:induction false} RunFaithful<V>(es: seq<At<V>>, now: int)
    requires Ordered(es) && (es != [] ==> es[|es| - 1].time <= now)
    ensures ItemsFaithful(Run(es), es, now)
  {
    if es == [] {
    } else {
      var n := |es| - 1;
      RunFaithful(es[..n], es[n].time);
      assert es[..n] + [es[n]] == es;
      FaithfulStep(Run(es[..n]), es[..n], es[n], es[n].time);
      forall k ensures Faithful(Lookup(Run(es).items, k), LastSet(es, k), now) {
        assert Faithful(Lookup(Run(es).items, k), LastSet(es, k), es[n].time);
      }
    }
  }

  /** A Get reads at position r and compares with the clock at position j. */
  ghost predicate GetAt<V>(es: seq<At<V>>, r: nat, j: nat, id: nat, key: string) {
    && r < j < |es|
    && es[r].ev == GetReads(id, key) && id !in Run(es[..r]).gets
    && es[j].ev == GetJudges(id) && (forall k | r < k < j :: es[k].ev != GetJudges(id))
  }

  /** The result of a Get, once it has one. */
  function ResultOf<V>(s: State<V>, id: nat): Option<Option<V>> {
    if id in s.gets && !s.gets[id].Reading? then Some(s.gets[id].result) else None
  }

  lemma {:induction false} StillReading<V>(es: seq<At<V>>, r: nat, k: nat, id: nat, key: string)
    requires r < k <= |es| && es[r].ev == GetReads(id, key) && id !in Run(es[..r]).gets
    requires forall i | r < i < k :: es[i].ev != GetJudges(id)
    ensures id in Run(es[..k]).gets && Run(es[..k]).gets[id] == Reading(Lookup(Run(es[..r]).items, key))
  {
    assert es[..k][..k - 1] == es[..k - 1];
    if k > r + 1 {
      StillReading(es, r, k - 1, id, key);
    }
  }

  lemma {:induction false} ResultStays<V>(es: seq<At<V>>, k: nat, id: nat)
    requires k <= |es| && ResultOf(Run(es[..k]), id).Some?
    ensures ResultOf(Run(es), id) == ResultOf(Run(es[..k]), id)
  {
    if k < |es| {
      var n := |es| - 1;
      assert es[..n][..k] == es[..k];
      ResultStays(es[..n], k, id);
    } else {
      assert es[..k] == es;
    }
  }

  /**
    For every interleaving, a Get returns exactly this: the value of the latest Set of its key at
    the instant it read the map, if that entry had not expired when it was compared with the clock;
    otherwise nothing.  Sweeps do not show.
  */
  lemma {:induction false} GetExact<V>(es: seq<At<V>>, r: nat, j: nat, id: nat, key: string)
    requires Ordered(es) && GetAt(es, r, j, id, key)
    ensures ResultOf(Run(es), id) == Some(Judge(LastSet(es[..r], key), es[j].time))
  {
    StillReading(es, r, j, id, key);
    RunFaithful(es[..r], es[r].time);
    assert Faithful(Lookup(Run(es[..r]).items, key), LastSet(es[..r], key), es[r].time);
    assert es[..j + 1][..j] == es[..j];
    ResultStays(es, j + 1, id);
  }

  /** The position of the latest Set of a key. */
  lemma {:induction false} LastSetAt<V>(es: seq<At<V>>, key: string) returns (w: nat)
    requires LastSet(es, key).Some?
    ensures w < |es| && es[w].ev.Sets? && es[w].ev.key == key
    ensures LastSet(es, key) == Some(Entry(es[w].ev.value, es[w].time + es[w].ev.ttl))
    ensures forall k | w < k < |es| :: !(es[k].ev.Sets? && es[k].ev.key == key)
  {
    var n := |es| - 1;
    if es[n].ev.Sets? && es[n].ev.key == key {
      w := n;
    } else {
      w := LastSetAt(es[..n], key);
    }
  }

  lemma {:induction false} SameLast<V>(es: seq<At<V>>, r: nat, j: nat, key: string)
    requires r <= j <= |es|
    requires forall k | r <= k < j :: !(es[k].ev.Sets? && es[k].ev.key == key)
    ensures LastSet(es[..j], key) == LastSet(es[..r], key)
  {
    if r < j {
      assert es[..j][..j - 1] == es[..j - 1];
      SameLast(es, r, j - 1, key);
    }
  }

  /** The last Set of the key before the read is at w, of this value, and has not expired at `now`. */
  ghost predicate Supplies<V>(es: seq<At<V>>, w: nat, r: nat, key: string, v: V, now: int)
    requires r <= |es|
  {
    && w < r && es[w].ev.Sets? && es[w].ev.key == key && es[w].ev.value == v && now <= es[w].time + es[w].ev.ttl
    && forall k | w < k < r :: !SetsKey(es[k].ev, key)
  }

  /** A Get hits exactly if the last Set before it read the map had not expired, that instant included. */
  lemma {:induction false} GetMeans<V>(es: seq<At<V>>, r: nat, j: nat, id: nat, key: string, v: V)
    requires Ordered(es) && GetAt(es, r, j, id, key)
    ensures ResultOf(Run(es), id) == Some(Some(v)) <==> exists w :: Supplies(es, w, r, key, v, es[j].time)
  {
    GetExact(es, r, j, id, key);
    var before := es[..r];
    if LastSet(before, key).Some? {
      var w := LastSetAt(before, key);
      assert forall k | w < k < r :: before[k] == es[k];
      assert before[w] == es[w];
      forall u: nat | Supplies(es, u, r, key, v, es[j].time) ensures u == w {
        assert !SetsKey(before[w].ev, key) || u >= w;
      }
      assert ResultOf(Run(es), id) == Some(Some(v)) ==> Supplies(es, w, r, key, v, es[j].time);
    } else {
      forall u: nat | Supplies(es, u, r, key, v, es[j].time) ensures false {
        LastSetNone(before, key, u);
      }
    }
  }

  lemma {:induction false} LastSetNone<V>(es: seq<At<V>>, key: string, w: nat)
    requires w < |es| && SetsKey(es[w].ev, key)
    ensures LastSet(es, key).Some?
  {
    var n := |es| - 1;
    if w < n {
      LastSetNone(es[..n], key, w);
    }
  }

  /** Right after a sweep the map has the latest entry of every key, unless it had expired when the janitor looked. */
  lemma {:induction false} SweepLeaves<V>(es: seq<At<V>>, looked: int, swept: int, key: string)
    requires Ordered(es + [At(looked, JanitorLooks), At(swept, JanitorSweeps)])
    ensures var all := es + [At(looked, JanitorLooks), At(swept, JanitorSweeps)];
      Lookup(Run(all).items, key) ==
      if LastSet(es, key).Some? && looked <= LastSet(es, key).value.expires then LastSet(es, key) else None
  {
    var all := es + [At(looked, JanitorLooks), At(swept, JanitorSweeps)];
    var first := es + [At(looked, JanitorLooks)];
    assert all[..|es| + 1] == first && first[..|es|] == es;
    assert forall i | 0 <= i < |es| :: all[i] == es[i];
    assert all[|es|].time == looked;
    RunFaithful(es, looked);
    assert Faithful(Lookup(Run(es).items, key), LastSet(es, key), looked);
  }

  // ---- When a Get is as good as atomic ----

  /**
    An instant between the two pieces of a Get that read and compare: m events have happened, the
    read among them and the comparison not, and the clock shows t.
  */
  ghost predicate Instant<V>(es: seq<At<V>>, r: nat, j: nat, m: nat, t: int) {
    r < m <= j < |es| && es[m - 1].time <= t <= es[m].time
  }

  /** What a Get that is not interrupted returns at an instant. */
  function AtomicGet<V>(es: seq<At<V>>, key: string, m: nat, t: int): Option<V>
    requires m <= |es|
  {
    Judge(Lookup(Run(es[..m]).items, key), t)
  }

  /** The Get that reads at r and compares at j returns what an atomic Get would at some instant in between. */
  ghost predicate Linearizes<V>(es: seq<At<V>>, r: nat, j: nat, id: nat, key: string) {
    exists m, t :: Instant(es, r, j, m, t) && ResultOf(Run(es), id) == Some(AtomicGet(es, key, m, t))
  }

  /** At every instant in between an atomic Get hits. */
  ghost predicate LiveThroughout<V>(es: seq<At<V>>, r: nat, j: nat, key: string) {
    forall m, t :: Instant(es, r, j, m, t) ==> AtomicGet(es, key, m, t).Some?
  }

  /** Every entry the key has in between outlives the comparison or is overwritten before it expires. */
  ghost predicate RefreshedInTime<V>(es: seq<At<V>>, r: nat, j: nat, key: string)
    requires r < j < |es|
  {
    forall m | r < m <= j :: LastSet(es[..m], key).Some? && Relieved(es, m, j, key, LastSet(es[..m], key).value.expires)
  }

  ghost predicate Relieved<V>(es: seq<At<V>>, m: nat, j: nat, key: string, expires: int)
    requires j < |es|
  {
    es[j].time <= expires || exists w | m <= w < j :: SetsKey(es[w].ev, key) && es[w].time <= expires
  }

  predicate SetsKey<V>(e: Event<V>, key: string) { e.Sets? && e.key == key }

  lemma {:induction false} AtomicIs<V>(es: seq<At<V>>, r: nat, j: nat, key: string, m: nat, t: int)
    requires Ordered(es) && Instant(es, r, j, m, t)
    ensures AtomicGet(es, key, m, t) == Judge(LastSet(es[..m], key), t)
  {
    RunFaithful(es[..m], t);
    assert Faithful(Lookup(Run(es[..m]).items, key), LastSet(es[..m], key), t);
  }

  /** Right after the read the key still has the entry that was read. */
  lemma {:induction false} AfterRead<V>(es: seq<At<V>>, r: nat, j: nat, id: nat, key: string)
    requires GetAt(es, r, j, id, key)
    ensures LastSet(es[..r + 1], key) == LastSet(es[..r], key)
  {
    assert es[..r + 1][..r] == es[..r];
  }

  /** An overwritten entry was current until it was overwritten. */
  lemma {:induction false} UntilOverwritten<V>(es: seq<At<V>>, m: nat, j: nat, key: string) returns (w: nat)
    requires m <= j < |es|
    ensures m <= w <= j && LastSet(es[..w], key) == LastSet(es[..m], key)
    ensures w < j ==> SetsKey(es[w].ev, key)
  {
    w := m;
    while w < j && !SetsKey(es[w].ev, key)
      invariant m <= w <= j && forall k | m <= k < w :: !SetsKey(es[k].ev, key)
    {
      w := w + 1;
    }
    SameLast(es, m, w, key);
  }

  lemma {:induction false} LiveIff<V>(es: seq<At<V>>, r: nat, j: nat, key: string)
    requires Ordered(es) && r < j < |es|
    ensures LiveThroughout(es, r, j, key) <==> RefreshedInTime(es, r, j, key)
  {
    if LiveThroughout(es, r, j, key) {
      forall m | r < m <= j
        ensures LastSet(es[..m], key).Some? && Relieved(es, m, j, key, LastSet(es[..m], key).value.expires)
      {
        var w := UntilOverwritten(es, m, j, key);
        assert Instant(es, r, j, w, es[w].time);
        AtomicIs(es, r, j, key, w, es[w].time);
      }
    }
    if RefreshedInTime(es, r, j, key) {
      forall m: nat, t | Instant(es, r, j, m, t) ensures AtomicGet(es, key, m, t).Some? {
        AtomicIs(es, r, j, key, m, t);
        var expires := LastSet(es[..m], key).value.expires;
        assert Relieved(es, m, j, key, expires);
        if es[j].time > expires {
          var w :| m <= w < j && SetsKey(es[w].ev, key) && es[w].time <= expires;
          assert es[m].time <= es[w].time;
        }
      }
    }
  }

  /** A hit is what an atomic Get would have returned at the instant the map was read. */
  lemma {:induction false} HitLinearizes<V>(es: seq<At<V>>, r: nat, j: nat, id: nat, key: string)
    requires Ordered(es) && GetAt(es, r, j, id, key) && Judge(LastSet(es[..r], key), es[j].time).Some?
    ensures Linearizes(es, r, j, id, key)
  {
    GetExact(es, r, j, id, key);
    AfterRead(es, r, j, id, key);
    assert Instant(es, r, j, r + 1, es[r].time);
    AtomicIs(es, r, j, key, r + 1, es[r].time);
  }

  /**
    For every interleaving: a Get returns what an atomic Get would at some instant between its
    pieces, if and only if it hits or the key is dead at some such instant.  The exception is a miss
    of a key that is live throughout, which happens exactly when the entry that was read has expired
    by the comparison, and it and every entry after it is overwritten before it expires or outlives
    the comparison.
  */
  lemma {:induction false} GetLinearizes<V>(es: seq<At<V>>, r: nat, j: nat, id: nat, key: string)
    requires Ordered(es) && GetAt(es, r, j, id, key)
    ensures ResultOf(Run(es), id).Some?
    ensures Linearizes(es, r, j, id, key) <==>
            ResultOf(Run(es), id).value.Some? || !LiveThroughout(es, r, j, key)
    ensures Linearizes(es, r, j, id, key) <==>
            Judge(LastSet(es[..r], key), es[j].time).Some? || !RefreshedInTime(es, r, j, key)
  {
    GetExact(es, r, j, id, key);
    LiveIff(es, r, j, key);
    if Judge(LastSet(es[..r], key), es[j].time).Some? {
      HitLinearizes(es, r, j, id, key);
    }
  }

  /** Without a Set of the key in between, a Get returns what an atomic one would at the comparison. */
  lemma {:induction false} UndisturbedGet<V>(es: seq<At<V>>, r: nat, j: nat, id: nat, key: string)
    requires Ordered(es) && GetAt(es, r, j, id, key)
    requires forall k | r < k < j :: !SetsKey(es[k].ev, key)
    ensures ResultOf(Run(es), id) == Some(AtomicGet(es, key, j, es[j].time))
  {
    GetExact(es, r, j, id, key);
    SameLast(es, r, j, key);
    AtomicIs(es, r, j, key, j, es[j].time);
  }

  /** A key that is set for one tick, read, set again within the tick, and judged one tick too late. */
  function Late<V>(v: V, w: V): seq<At<V>> {
    [At(0, Sets("k", v, 1)), At(0, GetReads(0, "k")), At(1, Sets("k", w, 10)), At(2, GetJudges(0))]
  }

  lemma {:induction false} LateSets<V>(v: V, w: V)
    ensures var es := Late(v, w);
      && Ordered(es) && GetAt(es, 1, 3, 0, "k")
      && LastSet(es[..1], "k") == Some(Entry(v, 1)) && LastSet(es[..2], "k") == Some(Entry(v, 1))
      && LastSet(es[..3], "k") == Some(Entry(w, 11))
  {
    var es := Late(v, w);
    assert es[..1] == [es[0]] && es[..1][..0] == [];
    assert es[..2][..1] == es[..1] && es[..3][..2] == es[..2];
    assert Run(es[..1]) == Step(Init<V>(), es[0]);
  }

  /** The exception happens: here the key is live at every instant between the pieces, and Get misses. */
  lemma {:induction false} SpuriousMiss<V>(v: V, w: V)
    ensures GetAt(Late(v, w), 1, 3, 0, "k") && LiveThroughout(Late(v, w), 1, 3, "k")
    ensures ResultOf(Run(Late(v, w)), 0) == Some(None) && !Linearizes(Late(v, w), 1, 3, 0, "k")
  {
    var es := Late(v, w);
    LateSets(v, w);
    assert SetsKey(es[2].ev, "k") && es[2].time <= 1;
    forall m | 1 < m <= 3
      ensures LastSet(es[..m], "k").Some? && Relieved(es, m, 3, "k", LastSet(es[..m], "k").value.expires)
    {
      assert m == 2 || m == 3;
    }
    LiveIff(es, 1, 3, "k");
    GetExact(es, 1, 3, 0, "k");
    GetLinearizes(es, 1, 3, 0, "k");
  }

  // ---- Sweeps change no result ----

  predicate Janitor<V>(e: Event<V>) { e.JanitorLooks? || e.JanitorSweeps? }

  function WithoutJanitor<V>(es: seq<At<V>>): seq<At<V>> {
    if es == [] then []
    else WithoutJanitor(es[..|es| - 1]) + if Janitor(es[|es| - 1].ev) then [] else [es[|es| - 1]]
  }

  /** Get for Get, the two states agree on everything a Get can still return or has returned. */
  ghost predicate SameGet<V>(g: Get<V>, h: Get<V>, now: int) {
    match (g, h)
    case (Reading(f), Reading(f')) => Faithful(f, f', now)
    case _ => g == h
  }

  ghost predicate SameItems<V>(a: Items<V>, b: Items<V>, now: int) {
    forall k :: Faithful(Lookup(a, k), Lookup(b, k), now)
  }

  ghost predicate SameGets<V>(a: map<nat, Get<V>>, b: map<nat, Get<V>>, now: int) {
    a.Keys == b.Keys && forall id | id in a :: SameGet(a[id], b[id], now)
  }

  ghost predicate SameResults<V>(s: State<V>, t: State<V>, now: int) {
    && (s.looked.Some? ==> s.looked.value <= now)
    && SameItems(s.items, t.items, now) && SameGets(s.gets, t.gets, now)
    && s.hits == t.hits && s.misses == t.misses
  }

  lemma {:induction false} SameLater<V>(s: State<V>, t: State<V>, now: int, later: int)
    requires SameResults(s, t, now) && now <= later
    ensures SameResults(s, t, later)
  {
    forall k ensures Faithful(Lookup(s.items, k), Lookup(t.items, k), later) {
      assert Faithful(Lookup(s.items, k), Lookup(t.items, k), now);
    }
    forall id | id in s.gets ensures SameGet(s.gets[id], t.gets[id], later) {
      assert SameGet(s.gets[id], t.gets[id], now);
    }
  }

  lemma {:induction false} SweepUnseen<V>(s: State<V>, t: State<V>, a: At<V>)
    requires SameResults(s, t, a.time) && Janitor(a.ev)
    ensures SameResults(Step(s, a), t, a.time)
  {
    var s' := Step(s, a);
    forall k ensures Faithful(Lookup(s'.items, k), Lookup(t.items, k), a.time) {
      assert Faithful(Lookup(s.items, k), Lookup(t.items, k), a.time);
    }
  }

  lemma {:induction false} SetSame<V>(a: Items<V>, b: Items<V>, key: string, e: Entry<V>, now: int)
    requires SameItems(a, b, now)
    ensures SameItems(a[key := e], b[key := e], now)
  {
    var x, y := a[key := e], b[key := e];
    forall k ensures Faithful(Lookup(x, k), Lookup(y, k), now) {
      assert Faithful(Lookup(a, k), Lookup(b, k), now);
    }
  }

  lemma {:induction false} GetSame<V>(a: map<nat, Get<V>>, b: map<nat, Get<V>>, id: nat, g: Get<V>, h: Get<V>, now: int)
    requires SameGets(a, b, now) && SameGet(g, h, now)
    ensures SameGets(a[id := g], b[id := h], now)
  {
  }

  lemma {:induction false} PieceSame<V>(s: State<V>, t: State<V>, a: At<V>)
    requires SameResults(s, t, a.time) && !Janitor(a.ev)
    ensures SameResults(Step(s, a), Step(t, a), a.time)
  {
    match a.ev
    case Sets(key, value, ttl) => SetSame(s.items, t.items, key, Entry(value, a.time + ttl), a.time);
    case GetReads(id, key) =>
      if id !in s.gets {
        GetSame(s.gets, t.gets, id, Reading(Lookup(s.items, key)), Reading(Lookup(t.items, key)), a.time);
      }
    case GetJudges(id) =>
      if id in s.gets {
        assert SameGet(s.gets[id], t.gets[id], a.time);
        if s.gets[id].Reading? {
          var r := Judge(s.gets[id].found, a.time);
          GetSame(s.gets, t.gets, id, Judged(r), Judged(r), a.time);
        }
      }
    case GetCounts(id) =>
      if id in s.gets {
        assert SameGet(s.gets[id], t.gets[id], a.time);
        if s.gets[id].Judged? {
          GetSame(s.gets, t.gets, id, Counted(s.gets[id].result), Counted(s.gets[id].result), a.time);
        }
      }
  }

  lemma {:induction false} ErasureSimulates<V>(es: seq<At<V>>, now: int)
    requires Ordered(es) && (es != [] ==> es[|es| - 1].time <= now)
    ensures SameResults(Run(es), Run(WithoutJanitor(es)), now)
  {
    if es == [] {
    } else {
      var n := |es| - 1;
      var a := es[n];
      var rest := WithoutJanitor(es[..n]);
      ErasureSimulates(es[..n], a.time);
      if Janitor(a.ev) {
        SweepUnseen(Run(es[..n]), Run(rest), a);
        assert WithoutJanitor(es) == rest;
      } else {
        PieceSame(Run(es[..n]), Run(rest), a);
        assert WithoutJanitor(es) == rest + [a] && (rest + [a])[..|rest|] == rest;
      }
      SameLater(Run(es), Run(WithoutJanitor(es)), a.time, now);
    }
  }

  /** Runs that differ only in what the janitor does give every Get the same result and count alike. */
  lemma {:induction false} JanitorInvisible<V>(es: seq<At<V>>, fs: seq<At<V>>)
    requires Ordered(es) && Ordered(fs) && WithoutJanitor(es) == WithoutJanitor(fs)
    ensures forall id :: ResultOf(Run(es), id) == ResultOf(Run(fs), id)
    ensures Run(es).hits == Run(fs).hits && Run(es).misses == Run(fs).misses
  {
    var t := Run(WithoutJanitor(es));
    var m := if es == [] then 0 else es[|es| - 1].time;
    var n := if fs == [] then 0 else fs[|fs| - 1].time;
    ErasureSimulates(es, m);
    ErasureSimulates(fs, n);
    forall id ensures ResultOf(Run(es), id) == ResultOf(Run(fs), id) {
      if id in t.gets {
        assert SameGet(Run(es).gets[id], t.gets[id], m) && SameGet(Run(fs).gets[id], t.gets[id], n);
      }
    }
  }

  // ---- Counters ----

  function Hits<V>(gets: map<nat, Get<V>>): set<nat> {
    set id | id in gets && gets[id].Counted? && gets[id].result.Some?
  }

  function Misses<V>(gets: map<nat, Get<V>>): set<nat> {
    set id | id in gets && gets[id].Counted? && gets[id].result.None?
  }

  lemma {:induction false} CountersExact<V>(es: seq<At<V>>)
    ensures Run(es).hits == |Hits(Run(es).gets)| && Run(es).misses == |Misses(Run(es).gets)|
  {
    if es == [] {
    } else {
      var n := |es| - 1;
      CountersExact(es[..n]);
      CounterStep(Run(es[..n]), es[n]);
    }
  }

  lemma {:induction false} OneCounted<V>(gets: map<nat, Get<V>>, id: nat, r: Option<V>)
    requires id in gets && !gets[id].Counted?
    ensures var t := gets[id := Counted(r)];
      && |Hits(t)| == |Hits(gets)| + (if r.Some? then 1 else 0)
      && |Misses(t)| == |Misses(gets)| + (if r.Some? then 0 else 1)
  {
    var t := gets[id := Counted(r)];
    if r.Some? {
      assert Hits(t) == Hits(gets) + {id};
      assert Misses(t) == Misses(gets);
    } else {
      assert Misses(t) == Misses(gets) + {id};
      assert Hits(t) == Hits(gets);
    }
  }

  lemma {:induction false} NoneCounted<V>(gets: map<nat, Get<V>>, id: nat, g: Get<V>)
    requires (id in gets ==> !gets[id].Counted?) && !g.Counted?
    ensures Hits(gets[id := g]) == Hits(gets) && Misses(gets[id := g]) == Misses(gets)
  {
  }

  lemma {:induction false} CounterStep<V>(s: State<V>, a: At<V>)
    requires s.hits == |Hits(s.gets)| && s.misses == |Misses(s.gets)|
    ensures Step(s, a).hits == |Hits(Step(s, a).gets)| && Step(s, a).misses == |Misses(Step(s, a).gets)|
  {
    match a.ev
    case GetReads(id, key) =>
      if id !in s.gets {
        NoneCounted(s.gets, id, Reading(Lookup(s.items, key)));
      }
    case GetJudges(id) =>
      if id in s.gets && s.gets[id].Reading? {
        NoneCounted(s.gets, id, Judged(Judge(s.gets[id].found, a.time)));
      }
    case GetCounts(id) =>
      if id in s.gets && s.gets[id].Judged? {
        OneCounted(s.gets, id, s.gets[id].result);
      }
    case _ =>
  }

  /** Once no Get is pending, hits and misses together count every Get. */
  lemma {:induction false} CountersAddUp<V>(es: seq<At<V>>)
    requires forall id | id in Run(es).gets :: Run(es).gets[id].Counted?
    ensures Run(es).hits + Run(es).misses == |Run(es).gets|
  {
    CountersExact(es);
    var gets := Run(es).gets;
    assert Hits(gets) !! Misses(gets) && Hits(gets) + Misses(gets) == gets.Keys;
  }
}
