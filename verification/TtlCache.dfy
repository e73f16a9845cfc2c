/** The cache with expiring records: a map and a heap of tombstones that tells which record
    expires next. Times are numbers; the heap is the multiset of its tombstones. */
module TtlCache {
  import opened Base

  type Time = nat

  datatype Record<V> = Record(value: V, expiry: Option<Time>)

  datatype Tombstone<K> = Tombstone(key: K, expiry: Time)

  datatype Cache<!K, V> = Cache(records: map<K, Record<V>>, graveyard: multiset<Tombstone<K>>, clock: Time)

  predicate Expired<V>(r: Record<V>, clock: Time) { r.expiry.Some? && clock >= r.expiry.value }

  function Get<K, V>(c: Cache<K, V>, key: K): Option<V> {
    if key in c.records && !Expired(c.records[key], c.clock) then Some(c.records[key].value) else None
  }

  /** A ttl of zero aborts. */
  function InsertWithTtl<K, V>(c: Cache<K, V>, key: K, value: V, ttl: Option<nat>): Outcome<(Cache<K, V>, Option<V>)> {
    if ttl == Some(0) then Panic
    else
      var expiry := if ttl.Some? then Some(c.clock + ttl.value) else None;
      Done((c.(records := c.records[key := Record(value, expiry)],
               graveyard := if ttl.Some? then c.graveyard + multiset{Tombstone(key, c.clock + ttl.value)} else c.graveyard),
            Get(c, key)))
  }

  /** Removing returns a value only for a record that has an expiry. */
  function Remove<K, V>(c: Cache<K, V>, key: K): (Cache<K, V>, Option<V>) {
    (c.(records := c.records - {key}),
     if key in c.records && c.records[key].expiry.Some? then Get(c, key) else None)
  }

  function AdvanceClock<K, V>(c: Cache<K, V>, now: Time): Outcome<Cache<K, V>> {
    if now < c.clock then Panic else Done(c.(clock := now))
  }

  // ----- Invariant and refinement -----

  /** Every record with an expiry has its tombstone. */
  ghost predicate Consistent<K, V>(c: Cache<K, V>) {
    forall k | k in c.records && c.records[k].expiry.Some? :: Tombstone(k, c.records[k].expiry.value) in c.graveyard
  }

  /** An older tombstone that an eviction trips over: it is due, and its key was given a record
      that never expires, or one that expires later and is due too. */
  ghost predicate Trips<K, V>(c: Cache<K, V>, t: Tombstone<K>) {
    && t in c.graveyard && t.expiry <= c.clock && t.key in c.records
    && match c.records[t.key].expiry
       case None => true
       case Some(e) => t.expiry < e <= c.clock
  }

  ghost predicate Doomed<K(!new), V>(c: Cache<K, V>) { exists t :: Trips(c, t) }

  ghost predicate NoneExpired<K, V>(c: Cache<K, V>) { forall k | k in c.records :: !Expired(c.records[k], c.clock) }

  /** What eviction may do: drop expired records and tombstones that no record needs. */
  ghost predicate Evicts<K(!new), V>(c: Cache<K, V>, d: Cache<K, V>) {
    && d.clock == c.clock && Consistent(d) && d.graveyard <= c.graveyard
    && (forall k | k in d.records :: k in c.records && d.records[k] == c.records[k])
    && (forall k | k in c.records && k !in d.records :: Expired(c.records[k], c.clock))
  }

  /** Eviction changes no lookup, now or after any advance of the clock. */
  lemma EvictionIsInvisible<K(!new), V>(c: Cache<K, V>, d: Cache<K, V>, now: Time, key: K)
    requires Evicts(c, d) && now >= c.clock
    ensures Get(d.(clock := now), key) == Get(c.(clock := now), key)
  {
  }

  // ----- The plain expiring map -----

  /** The reference: a map that never forgets a record by itself, and a clock. */
  datatype Plain<!K, V> = Plain(records: map<K, Record<V>>, clock: Time)

  ghost function PlainGet<K, V>(p: Plain<K, V>, key: K): Option<V> {
    if key in p.records && !Expired(p.records[key], p.clock) then Some(p.records[key].value) else None
  }

  datatype Op<K, V> =
    | DoInsert(key: K, value: V, ttl: Option<nat>)
    | DoRemove(key: K)
    | DoAdvance(now: Time)
    | DoEvict
    | DoClear

  ghost function PlainStep<K, V>(p: Plain<K, V>, op: Op<K, V>): Plain<K, V> {
    match op
    case DoInsert(k, v, ttl) =>
      p.(records := p.records[k := Record(v, if ttl.Some? then Some(p.clock + ttl.value) else None)])
    case DoRemove(k) => p.(records := p.records - {k})
    case DoAdvance(now) => p.(clock := now)
    case DoEvict => p
    case DoClear => p.(records := map[])
  }

  /** `d` is what an operation that does not abort makes of `c`. */
  ghost predicate Steps<K(!new), V>(c: Cache<K, V>, op: Op<K, V>, d: Cache<K, V>) {
    match op
    case DoInsert(k, v, ttl) => InsertWithTtl(c, k, v, ttl).Done? && d == InsertWithTtl(c, k, v, ttl).value.0
    case DoRemove(k) => d == Remove(c, k).0
    case DoAdvance(now) => AdvanceClock(c, now) == Done(d)
    case DoEvict => Evicts(c, d)
    case DoClear => d == Cache(map[], multiset{}, c.clock)
  }

  /** The cache stands for the plain map: same clock, same live records. */
  ghost predicate Represents<K(!new), V>(c: Cache<K, V>, p: Plain<K, V>) {
    && c.clock == p.clock && Consistent(c)
    && (forall k | k in c.records :: k in p.records && c.records[k] == p.records[k])
    && (forall k | k in p.records && k !in c.records :: Expired(p.records[k], p.clock))
  }

  lemma StepRepresents<K(!new), V>(c: Cache<K, V>, op: Op<K, V>, d: Cache<K, V>, p: Plain<K, V>)
    requires Represents(c, p) && Steps(c, op, d)
    ensures Represents(d, PlainStep(p, op))
  {
    match op
    case DoInsert(k, v, ttl) =>
    case DoRemove(k) =>
    case DoAdvance(now) =>
    case DoEvict =>
    case DoClear =>
  }

  ghost predicate Run<K(!new), V>(caches: seq<Cache<K, V>>, ops: seq<Op<K, V>>) {
    && |caches| == |ops| + 1
    && caches[0].records == map[] && caches[0].graveyard == multiset{}
    && forall i | 0 <= i < |ops| :: Steps(caches[i], ops[i], caches[i + 1])
  }

  ghost function PlainAfter<K, V>(start: Time, ops: seq<Op<K, V>>): Plain<K, V> {
    if ops == [] then Plain(map[], start)
    else PlainStep(PlainAfter(start, ops[..|ops| - 1]), ops[|ops| - 1])
  }

  lemma {:induction false} RunRepresents<K(!new), V>(caches: seq<Cache<K, V>>, ops: seq<Op<K, V>>, i: nat)
    requires Run(caches, ops) && i <= |ops|
    ensures Represents(caches[i], PlainAfter(caches[0].clock, ops[..i]))
  {
    if i > 0 {
      hide Represents, Steps, PlainStep;
      RunRepresents(caches, ops, i - 1);
      assert ops[..i][..i - 1] == ops[..i - 1];
      assert Steps(caches[i - 1], ops[i - 1], caches[i]);
      StepRepresents(caches[i - 1], ops[i - 1], caches[i], PlainAfter(caches[0].clock, ops[..i - 1]));
    }
  }

  /** After every run of insertions, removals, clock advances and evictions, in any order, each
      lookup is that of the plain expiring map; an insertion returns that map's value, and a
      removal does too unless the record it removes has no expiry. Every record with an expiry
      has its tombstone. */
  lemma LookupsAreExact<K(!new), V>(caches: seq<Cache<K, V>>, ops: seq<Op<K, V>>, i: nat, key: K)
    requires Run(caches, ops) && i <= |ops|
    ensures var c, p := caches[i], PlainAfter(caches[0].clock, ops[..i]);
      && Consistent(c) && Get(c, key) == PlainGet(p, key)
      && (Remove(c, key).1 == PlainGet(p, key) <==> !(key in p.records && p.records[key].expiry.None?))
  {
    RunRepresents(caches, ops, i);
  }

  lemma InsertReturnsLookup<K(!new), V>(c: Cache<K, V>, key: K, value: V, ttl: Option<nat>)
    requires ttl != Some(0)
    ensures InsertWithTtl(c, key, value, ttl).value.1 == Get(c, key)
    ensures Get(InsertWithTtl(c, key, value, ttl).value.0, key) == Some(value)
  {
  }

  /** A record is found, with its value, at exactly the times before its life ends. */
  lemma RecordLives<K(!new), V>(c: Cache<K, V>, key: K, value: V, ttl: Option<nat>, now: Time)
    requires ttl != Some(0) && now >= c.clock
    ensures var d := InsertWithTtl(c, key, value, ttl).value.0;
      && AdvanceClock(d, now).Done?
      && Get(AdvanceClock(d, now).value, key) ==
         (if ttl.Some? && now - c.clock >= ttl.value then None else Some(value))
      && forall other | other != key :: Get(AdvanceClock(d, now).value, other) == Get(c.(clock := now), other)
  {
  }

  // ----- The cache as an object -----

  class HashTtlCache<K(!new, ==), V> {
    var records: map<K, Record<V>>
    var graveyard: multiset<Tombstone<K>>
    var clock: Time
    const defaultTtl: Option<nat>

    ghost function View(): Cache<K, V>
      reads this
    {
      Cache(records, graveyard, clock)
    }

    constructor (now: Time, defaultTtl: Option<nat>)
      requires defaultTtl != Some(0)
      ensures View() == Cache(map[], multiset{}, now) && this.defaultTtl == defaultTtl
    {
      this.records := map[];
      this.graveyard := multiset{};
      this.clock := now;
      this.defaultTtl := defaultTtl;
    }

    method Insert(key: K, value: V, ttl: Option<nat>) returns (ok: bool, previous: Option<V>)
      modifies this
      ensures ok <==> InsertWithTtl(old(View()), key, value, ttl).Done?
      ensures ok ==> InsertWithTtl(old(View()), key, value, ttl) == Done((View(), previous))
      ensures !ok ==> View() == old(View())
    {
      previous := None;
      if ttl == Some(0) {
        return false, None;
      }
      var expiry := if ttl.Some? then Some(clock + ttl.value) else None;
      if key in records {
        var record := records[key];
        if record.expiry.Some? {
          if clock < record.expiry.value {
            previous := Some(record.value);
          }
        } else {
          previous := Some(record.value);
        }
      }
      records := records[key := Record(value, expiry)];
      if expiry.Some? {
        graveyard := graveyard + multiset{Tombstone(key, expiry.value)};
      }
      ok := true;
    }

    method Lookup(key: K) returns (found: Option<V>)
      ensures found == Get(View(), key)
    {
      if key !in records {
        return None;
      }
      var record := records[key];
      if record.expiry.Some? && clock >= record.expiry.value {
        return None;
      }
      return Some(record.value);
    }

    method Delete(key: K) returns (removed: Option<V>)
      modifies this`records
      ensures (View(), removed) == Remove(old(View()), key)
    {
      removed := None;
      if key in records {
        var record := records[key];
        if record.expiry.Some? && clock < record.expiry.value {
          removed := Some(record.value);
        }
      }
      records := records - {key};
    }

    method Advance(now: Time) returns (ok: bool)
      modifies this`clock
      ensures ok <==> AdvanceClock(old(View()), now).Done?
      ensures View() == if ok then AdvanceClock(old(View()), now).value else old(View())
    {
      ok := now >= clock;
      if ok {
        clock := now;
      }
    }

    /** The tombstone the heap yields next: one of those that expire first. */
    method Peek() returns (t: Tombstone<K>)
      requires graveyard != multiset{}
      ensures t in graveyard && forall u | u in graveyard :: t.expiry <= u.expiry
    {
      t :| t in graveyard;
      var rest := graveyard;
      while rest != multiset{}
        invariant rest <= graveyard && t in graveyard
        invariant forall u | u in graveyard && u !in rest :: t.expiry <= u.expiry
        decreases |rest|
      {
        var u :| u in rest;
        if u.expiry < t.expiry {
          t := u;
        }
        rest := rest[u := 0];
      }
    }

    /** Evict one expired record, one that expired first; returns nothing exactly if none is left.
        Aborts if the first thing due is a tombstone that trips, and only if it is one of the
        first; among things due at the same time the heap decides. */
    method TryEvictOnce() returns (ok: bool, evicted: Option<(K, V)>)
      requires Consistent(View())
      modifies this`records, this`graveyard
      ensures !ok ==> exists t :: Trips(old(View()), t) && DueBefore(old(View()), t.expiry) == {}
      ensures (exists t :: Trips(old(View()), t) && DueBy(old(View()), t.expiry) == {}) ==> !ok
      ensures ok ==> Evicts(old(View()), View()) && SameTrips(old(View()), View())
      ensures ok && evicted.None? ==> View().records == old(View()).records && NoneExpired(View()) && !Doomed(View())
      ensures ok && evicted.Some? ==> EvictsFirst(old(View()), View(), evicted.value.0, evicted.value.1)
    {
      hide Doomed, Consistent, Evicts, NoneExpired, SameTrips, EvictsFirst, DueBefore, DueBy;
      ghost var was := View();
      SameTripsStart(was);
      while true
        invariant records == was.records && clock == was.clock && graveyard <= was.graveyard && Consistent(View())
        invariant SameTrips(was, View())
        decreases |graveyard|
      {
        if graveyard == multiset{} {
          NothingDue(was, View());
          return true, None;
        }
        var t := Peek();
        if clock < t.expiry {
          NothingDue(was, View());
          return true, None;
        }
        ghost var before := View();
        graveyard := graveyard - multiset{t};
        if t.key in records {
          var record := records[t.key];
          if record.expiry.None? {
            TripsOver(was, before, t);
            return false, None;
          }
          if record.expiry.value == t.expiry {
            records := records - {t.key};
            EvictOne(was, before, View(), t);
            NotFirst(was, View(), t.key, record.value);
            return true, Some((t.key, record.value));
          }
          if clock >= record.expiry.value {
            TripsOver(was, before, t);
            return false, None;
          }
        }
        DropTombstone(was, before, View(), t);
      }
    }

    /** Evict up to `count` records, or all of them if `count` is zero: those that expired first.
        If it stops before it has evicted `count`, then no expired record remains. No record is
        reported twice. It aborts if `MustAbort` and only if `MayAbort`. */
    method TryEvict(count: nat) returns (ok: bool, evicted: map<K, V>)
      requires Consistent(View())
      modifies this`records, this`graveyard
      ensures !ok ==> MayAbort(old(View()), count)
      ensures MustAbort(old(View()), count) ==> !ok
      ensures ok ==> Evicts(old(View()), View())
      ensures ok ==> Reported(old(View()), View(), evicted) && EarliestGone(old(View()), View(), evicted.Keys)
      ensures ok && count > 0 ==> |evicted| <= count
      ensures ok && (count == 0 || |evicted| < count) ==> NoneExpired(View())
    {
      hide Doomed, Consistent, Evicts, NoneExpired, SameTrips, EvictsFirst, EvictedFirst, DueBefore, DueBy, MayAbort,
        MustAbort, Reported, EarliestGone;
      ghost var was := View();
      evicted := map[];
      EvictsStart(was, evicted);
      var i := 0;
      while true
        invariant Evicts(was, View()) && SameTrips(was, View()) && Consistent(View())
        invariant Reported(was, View(), evicted) && EvictedFirst(was, evicted.Keys) && |evicted| == i
        invariant EarliestGone(was, View(), evicted.Keys)
        invariant count == 0 || i < count
        decreases records.Keys
      {
        var one;
        ghost var before := View();
        ok, one := TryEvictOnce();
        if !ok {
          AbortsWithin(was, before, evicted, count);
          return;
        }
        if one.None? {
          EvictsTwice(was, before, View());
          StillReported(was, before, View(), evicted);
          CleanCannotAbort(was, View(), count);
          return;
        }
        var (key, value) := one.value;
        EvictsTwice(was, before, View());
        EvictedOne(was, before, View(), evicted, key, value);
        EarliestNext(was, before, View(), evicted.Keys, key, value);
        OneMore(evicted, key, value);
        evicted := evicted[key := value];
        i := i + 1;
        if i == count {
          StopsInTime(was, evicted, count);
          return;
        }
      }
    }
  }

  // ----- When an eviction aborts -----

  /** The expired records that are due before time `e`, and by time `e`. */
  ghost function DueBefore<K, V>(c: Cache<K, V>, e: Time): set<K> {
    set k | k in c.records && Expired(c.records[k], c.clock) && c.records[k].expiry.value < e
  }

  ghost function DueBy<K, V>(c: Cache<K, V>, e: Time): set<K> {
    set k | k in c.records && Expired(c.records[k], c.clock) && c.records[k].expiry.value <= e
  }

  /** An eviction of `count` records can reach a tombstone that trips: fewer than `count` records
      are due before it. */
  ghost predicate MayAbort<K(!new), V>(c: Cache<K, V>, count: nat) {
    exists t :: Trips(c, t) && (count == 0 || |DueBefore(c, t.expiry)| < count)
  }

  /** It must reach one: fewer than `count` records are due by the time the tombstone is. */
  ghost predicate MustAbort<K(!new), V>(c: Cache<K, V>, count: nat) {
    exists t :: Trips(c, t) && (count == 0 || |DueBy(c, t.expiry)| < count)
  }

  /** The two conditions are one, so that an eviction aborts if and only if it holds, whenever no
      record is due at the very time of a tombstone that trips; and always without a count. */
  lemma AbortConditionsAgree<K(!new), V>(c: Cache<K, V>, count: nat)
    requires count == 0 || forall t, k :: Trips(c, t) && k in c.records ==> c.records[k].expiry != Some(t.expiry)
    ensures MayAbort(c, count) <==> MustAbort(c, count)
    ensures count == 0 ==> (MustAbort(c, count) <==> Doomed(c))
  {
    if count != 0 {
      forall t | Trips(c, t) ensures DueBefore(c, t.expiry) == DueBy(c, t.expiry) {
      }
    }
  }

  ghost predicate SameTrips<K(!new), V>(c: Cache<K, V>, d: Cache<K, V>) { forall t :: Trips(c, t) <==> Trips(d, t) }

  /** The record of `key` is gone, with nothing expired or tripping before it. */
  ghost predicate EvictsFirst<K(!new), V>(c: Cache<K, V>, d: Cache<K, V>, key: K, value: V) {
    && key in c.records && Expired(c.records[key], c.clock) && value == c.records[key].value
    && d.records == c.records - {key} && DueBefore(c, c.records[key].expiry.value) == {}
    && forall t | Trips(c, t) :: c.records[key].expiry.value <= t.expiry
  }

  /** `evicted` is what `d` lost of `c`. */
  ghost predicate Reported<K(!new), V>(c: Cache<K, V>, d: Cache<K, V>, evicted: map<K, V>) {
    && evicted.Keys == c.records.Keys - d.records.Keys
    && forall k | k in evicted :: evicted[k] == c.records[k].value
  }

  /** Of the records of `c` that had expired, those in `gone` expired no later than those that
      `d` still has. */
  ghost predicate EarliestGone<K(!new), V>(c: Cache<K, V>, d: Cache<K, V>, gone: set<K>) {
    forall k, j | k in gone && k in c.records && j in d.records && Expired(d.records[j], c.clock) ::
      Expired(c.records[k], c.clock) && c.records[k].expiry.value <= d.records[j].expiry.value
  }

  lemma EarliestNext<K(!new), V>(was: Cache<K, V>, c: Cache<K, V>, d: Cache<K, V>, gone: set<K>, key: K, value: V)
    requires Evicts(was, c) && EvictsFirst(c, d, key, value) && EarliestGone(was, c, gone)
    ensures EarliestGone(was, d, gone + {key})
  {
    hide Trips, Consistent;
    forall j | j in d.records && Expired(d.records[j], was.clock)
      ensures was.records[key].expiry.value <= d.records[j].expiry.value
    {
      assert j !in DueBefore(c, c.records[key].expiry.value);
    }
  }

  lemma StillReported<K(!new), V>(was: Cache<K, V>, c: Cache<K, V>, d: Cache<K, V>, evicted: map<K, V>)
    requires Reported(was, c, evicted) && EarliestGone(was, c, evicted.Keys) && d.records == c.records
    ensures Reported(was, d, evicted) && EarliestGone(was, d, evicted.Keys)
  {
  }

  /** Every key in `gone` expired, none of them after a tombstone that trips. */
  ghost predicate EvictedFirst<K(!new), V>(c: Cache<K, V>, gone: set<K>) {
    forall k | k in gone :: k in c.records && Expired(c.records[k], c.clock) &&
      forall t | Trips(c, t) :: c.records[k].expiry.value <= t.expiry
  }

  lemma SameTripsStart<K(!new), V>(c: Cache<K, V>)
    ensures SameTrips(c, c)
  {
  }

  lemma EvictsStart<K(!new), V>(c: Cache<K, V>, none: map<K, V>)
    requires Consistent(c) && none == map[]
    ensures Evicts(c, c) && SameTrips(c, c) && EvictedFirst(c, none.Keys) && Reported(c, c, none)
    ensures EarliestGone(c, c, none.Keys)
  {
  }

  lemma EvictsTwice<K(!new), V>(c: Cache<K, V>, d: Cache<K, V>, e: Cache<K, V>)
    requires Evicts(c, d) && Evicts(d, e) && SameTrips(c, d) && SameTrips(d, e)
    ensures Evicts(c, e) && SameTrips(c, e) && Consistent(e)
  {
    hide Trips;
  }

  lemma SubsetSize<K>(a: set<K>, b: set<K>)
    requires a <= b
    ensures |a| <= |b|
  {
    assert b == a + (b - a);
  }

  lemma EvictedOne<K(!new), V>(was: Cache<K, V>, c: Cache<K, V>, d: Cache<K, V>, evicted: map<K, V>, key: K, value: V)
    requires Evicts(was, c) && SameTrips(was, c) && EvictsFirst(c, d, key, value)
    requires Reported(was, c, evicted) && EvictedFirst(was, evicted.Keys)
    ensures key !in evicted && Reported(was, d, evicted[key := value])
    ensures EvictedFirst(was, evicted[key := value].Keys)
    ensures |evicted[key := value]| == |evicted| + 1 && d.records.Keys < c.records.Keys
  {
    NewlyReported(was, c, d, evicted, key, value);
    NewlyFirst(was, c, d, evicted.Keys, key, value);
    OneMore(evicted, key, value);
    hide *;
  }

  lemma OneMore<K, V>(m: map<K, V>, key: K, value: V)
    ensures m[key := value].Keys == m.Keys + {key}
    ensures key !in m ==> |m[key := value]| == |m| + 1
  {
    assert |m[key := value]| == |m[key := value].Keys| && |m| == |m.Keys|;
  }

  lemma NewlyReported<K(!new), V>(was: Cache<K, V>, c: Cache<K, V>, d: Cache<K, V>, evicted: map<K, V>, key: K, value: V)
    requires Evicts(was, c) && key in c.records && value == c.records[key].value && d.records == c.records - {key}
    requires Reported(was, c, evicted)
    ensures key !in evicted && Reported(was, d, evicted[key := value]) && d.records.Keys < c.records.Keys
  {
    assert c.records.Keys == d.records.Keys + {key};
  }

  lemma NewlyFirst<K(!new), V>(was: Cache<K, V>, c: Cache<K, V>, d: Cache<K, V>, gone: set<K>, key: K, value: V)
    requires Evicts(was, c) && SameTrips(was, c) && EvictsFirst(c, d, key, value) && EvictedFirst(was, gone)
    ensures EvictedFirst(was, gone + {key})
  {
    hide Trips, DueBefore, Consistent;
  }

  /** An abort after `evicted` was: only those were due before the tombstone. */
  lemma AbortsWithin<K(!new), V>(was: Cache<K, V>, c: Cache<K, V>, evicted: map<K, V>, count: nat)
    requires Evicts(was, c) && SameTrips(was, c) && Reported(was, c, evicted)
    requires exists t :: Trips(c, t) && DueBefore(c, t.expiry) == {}
    requires count == 0 || |evicted| < count
    ensures MayAbort(was, count)
  {
    hide Trips;
    var t :| Trips(c, t) && DueBefore(c, t.expiry) == {};
    var gone := evicted.Keys;
    assert |evicted| == |gone|;
    forall k | k in DueBefore(was, t.expiry) ensures k in gone {
      assert k in c.records ==> k in DueBefore(c, t.expiry);
    }
    SubsetSize(DueBefore(was, t.expiry), gone);
    assert Trips(was, t);
  }

  lemma StopsInTime<K(!new), V>(was: Cache<K, V>, evicted: map<K, V>, count: nat)
    requires EvictedFirst(was, evicted.Keys) && |evicted| == count > 0
    ensures !MustAbort(was, count)
  {
    hide Trips;
    var gone := evicted.Keys;
    assert |evicted| == |gone|;
    forall t | Trips(was, t) ensures |DueBy(was, t.expiry)| >= count {
      assert gone <= DueBy(was, t.expiry);
      SubsetSize(gone, DueBy(was, t.expiry));
    }
  }

  lemma CleanCannotAbort<K(!new), V>(was: Cache<K, V>, c: Cache<K, V>, count: nat)
    requires SameTrips(was, c) && !Doomed(c)
    ensures !MustAbort(was, count)
  {
    hide Trips;
  }

  lemma NotFirst<K(!new), V>(was: Cache<K, V>, d: Cache<K, V>, key: K, value: V)
    requires EvictsFirst(was, d, key, value)
    ensures !exists t :: Trips(was, t) && DueBy(was, t.expiry) == {}
  {
    hide Trips;
    forall t | Trips(was, t) ensures key in DueBy(was, t.expiry) {
    }
  }

  /** Popping a tombstone that no record needs and that trips nothing. */
  lemma DropTombstone<K(!new), V>(was: Cache<K, V>, c: Cache<K, V>, d: Cache<K, V>, t: Tombstone<K>)
    requires Consistent(c) && t in c.graveyard && d == c.(graveyard := c.graveyard - multiset{t})
    requires t.key in c.records ==> c.records[t.key].expiry.Some? && c.records[t.key].expiry.value > c.clock >= t.expiry
    requires SameTrips(was, c)
    ensures Consistent(d) && SameTrips(was, d)
  {
    forall k | k in d.records && d.records[k].expiry.Some?
      ensures Tombstone(k, d.records[k].expiry.value) in d.graveyard
    {
      assert Tombstone(k, c.records[k].expiry.value) in c.graveyard;
    }
    PoppedTrips(c, d, t);
  }

  /** If no tombstone is due then nothing has expired and nothing can trip. */
  lemma NothingDue<K(!new), V>(was: Cache<K, V>, c: Cache<K, V>)
    requires was.records == c.records && was.clock == c.clock && c.graveyard <= was.graveyard && Consistent(c)
    requires SameTrips(was, c)
    requires forall u | u in c.graveyard :: u.expiry > c.clock
    ensures Evicts(was, c) && NoneExpired(c) && !Doomed(c) && !Doomed(was)
    ensures !exists t :: Trips(was, t) && DueBy(was, t.expiry) == {}
  {
  }

  /** The first tombstone due meets a record that does not match it and is not in the future: it
      trips, and no expired record is due before it. */
  lemma TripsOver<K(!new), V>(was: Cache<K, V>, c: Cache<K, V>, t: Tombstone<K>)
    requires Consistent(c) && t in c.graveyard && t.expiry <= c.clock
    requires forall u | u in c.graveyard :: t.expiry <= u.expiry
    requires t.key in c.records && c.records[t.key].expiry != Some(t.expiry)
    requires c.records[t.key].expiry.Some? ==> c.records[t.key].expiry.value <= c.clock
    requires was.records == c.records && was.clock == c.clock && SameTrips(was, c)
    ensures Trips(was, t) && DueBefore(was, t.expiry) == {}
  {
    var expiry := c.records[t.key].expiry;
    if expiry.Some? {
      assert Tombstone(t.key, expiry.value) in c.graveyard;
    }
    assert Trips(c, t);
    NoneDueBefore(c, t);
    assert DueBefore(was, t.expiry) == DueBefore(c, t.expiry);
  }

  /** No record is due before the first tombstone. */
  lemma NoneDueBefore<K(!new), V>(c: Cache<K, V>, t: Tombstone<K>)
    requires Consistent(c) && forall u | u in c.graveyard :: t.expiry <= u.expiry
    ensures DueBefore(c, t.expiry) == {}
  {
    forall k | k in c.records && Expired(c.records[k], c.clock) ensures c.records[k].expiry.value >= t.expiry {
      assert Tombstone(k, c.records[k].expiry.value) in c.graveyard;
    }
  }

  lemma PoppedTrips<K(!new), V>(c: Cache<K, V>, d: Cache<K, V>, t: Tombstone<K>)
    requires t in c.graveyard && d.graveyard == c.graveyard - multiset{t} && d.clock == c.clock
    requires forall k | k in d.records :: k in c.records && d.records[k] == c.records[k]
    requires forall u | Trips(c, u) :: u != t && u.key in d.records
    ensures SameTrips(c, d)
  {
  }

  /** Evicting the record of the first tombstone that is due. */
  lemma EvictOne<K(!new), V>(was: Cache<K, V>, c: Cache<K, V>, d: Cache<K, V>, t: Tombstone<K>)
    requires Consistent(c) && t in c.graveyard && t.key in c.records && c.records[t.key].expiry == Some(t.expiry)
    requires t.expiry <= c.clock && forall u | u in c.graveyard :: t.expiry <= u.expiry
    requires d == c.(graveyard := c.graveyard - multiset{t}, records := c.records - {t.key})
    requires was.records == c.records && was.clock == c.clock && c.graveyard <= was.graveyard && SameTrips(was, c)
    ensures Evicts(was, d) && SameTrips(was, d) && EvictsFirst(was, d, t.key, c.records[t.key].value)
  {
    forall k | k in d.records && d.records[k].expiry.Some?
      ensures Tombstone(k, d.records[k].expiry.value) in d.graveyard
    {
      assert Tombstone(k, c.records[k].expiry.value) in c.graveyard;
    }
    PoppedTrips(c, d, t);
    NoneDueBefore(c, t);
    assert DueBefore(was, t.expiry) == DueBefore(c, t.expiry);
  }

  /** The simplest doomed caches: a key inserted twice, the second time with a longer life or
      with no end, and the clock past both. No record is due by the time of the old tombstone. */
  lemma ReinsertionDooms<K(!new), V>(k: K, v: V, w: V, ttl: nat, later: Option<nat>, now: Time)
    requires ttl > 0 && now >= ttl && (later.Some? ==> ttl < later.value <= now)
    ensures InsertWithTtl(Cache(map[], multiset{}, 0), k, v, Some(ttl)).Done?
    ensures var c1 := InsertWithTtl(Cache(map[], multiset{}, 0), k, v, Some(ttl)).value.0;
      && InsertWithTtl(c1, k, w, later).Done?
      && var c2 := InsertWithTtl(c1, k, w, later).value.0;
      && AdvanceClock(c2, now).Done?
      && var c3 := AdvanceClock(c2, now).value;
      Consistent(c3) && forall count :: MustAbort(c3, count)
  {
    var c1 := InsertWithTtl(Cache(map[], multiset{}, 0), k, v, Some(ttl)).value.0;
    var c2 := InsertWithTtl(c1, k, w, later).value.0;
    var c3 := AdvanceClock(c2, now).value;
    assert Trips(c3, Tombstone(k, ttl));
    assert DueBy(c3, ttl) == {};
    forall count: nat ensures MustAbort(c3, count) {
    }
  }

  /** And there the eviction does abort, whatever its count: the source's assertion fires if the
      second record expires, and its unwrap if it does not. */
  method ReinsertionAborts<K(!new, ==), V>(k: K, v: V, w: V, ttl: nat, later: Option<nat>, now: Time, count: nat)
    returns (ok: bool)
    requires ttl > 0 && now >= ttl && (later.Some? ==> ttl < later.value <= now)
    ensures !ok
  {
    ReinsertionDooms(k, v, w, ttl, later, now);
    hide *;
    var cache := new HashTtlCache<K, V>(0, None);
    var inserted, previous := cache.Insert(k, v, Some(ttl));
    inserted, previous := cache.Insert(k, w, later);
    var advanced := cache.Advance(now);
    var evicted;
    ok, evicted := cache.TryEvict(count);
  }
}
