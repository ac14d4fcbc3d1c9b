/**
 The in-memory cache offered to plugins: a store of namespaces, each an expiring cache
 that keeps its entries and, by expiration time, the keys that expire then.

 The clock is a parameter `now` of each call.  Durations and times are in nanoseconds.
 */
module PluginCache {
  import opened Basics

  type Time = int

  datatype Entry<V> = Entry(value: V, expires: Option<Time>)

  /** What `get` hides. */
  predicate Expired<V>(e: Entry<V>, now: Time) {
    e.expires.Some? && e.expires.value <= now
  }

  /** What `cleanup` drops: one instant later than what `get` hides. */
  predicate Stale<V>(e: Entry<V>, now: Time) {
    e.expires.Some? && e.expires.value < now
  }

  /** An entry put without a lifetime gets the namespace's default one. */
  function Stamped<V>(value: V, ttl: Option<nat>, defaultTtl: Option<nat>, now: Time): Entry<V> {
    if ttl.Some? then Entry(value, Some(now + ttl.value))
    else if defaultTtl.Some? then Entry(value, Some(now + defaultTtl.value))
    else Entry(value, None)
  }

  /** The entries left when the stale ones are dropped but for those of the times in `todo`. */
  function Left<V>(m: map<string, Entry<V>>, now: Time, todo: set<Time>): map<string, Entry<V>> {
    map k | k in m && !(Stale(m[k], now) && m[k].expires.value !in todo) :: m[k]
  }

  lemma LeftLess<V>(m: map<string, Entry<V>>, now: Time, todo: set<Time>, t: Time, keys: set<string>)
    requires t in todo && t < now
    requires forall k :: k in keys <==> k in m && m[k].expires == Some(t)
    ensures Left(m, now, todo) - keys == Left(m, now, todo - {t})
  {}

  class ExpiringCache<V> {
    const defaultTtl: Option<nat>
    var entries: map<string, Entry<V>>
    var expirations: map<Time, set<string>>

    /** A key is in the bucket of a time exactly if its entry expires then. */
    ghost predicate Valid()
      reads this
    {
      && (forall t, k :: t in expirations && k in expirations[t] ==> k in entries && entries[k].expires == Some(t))
      && (forall k :: k in entries && entries[k].expires.Some? ==>
            entries[k].expires.value in expirations && k in expirations[entries[k].expires.value])
    }

    constructor (defaultTtl: Option<nat>)
      ensures Valid() && entries == map[] && this.defaultTtl == defaultTtl
    {
      this.defaultTtl := defaultTtl;
      entries, expirations := map[], map[];
    }

    method Insert(key: string, entry: Entry<V>, now: Time)
      requires Valid()
      modifies this
      ensures Valid()
      ensures entries == old(entries)[key := if entry.expires.Some? then entry
                                             else Stamped(entry.value, None, defaultTtl, now)]
    {
      var stamped := entry;
      if defaultTtl.Some? && entry.expires.None? {
        stamped := entry.(expires := Some(now + defaultTtl.value));
      }
      if key in entries && entries[key].expires.Some? {
        var t := entries[key].expires.value; // its bucket exists
        expirations := expirations[t := expirations[t] - {key}];
      }
      entries := entries[key := stamped];
      if stamped.expires.Some? {
        var t := stamped.expires.value;
        expirations := expirations[t := (if t in expirations then expirations[t] else {}) + {key}];
      }
    }

    method Remove(key: string) returns (present: bool)
      requires Valid()
      modifies this
      ensures Valid()
      ensures present <==> key in old(entries)
      ensures entries == old(entries) - {key}
    {
      present := key in entries;
      if present {
        if entries[key].expires.Some? {
          var t := entries[key].expires.value; // its bucket exists
          expirations := expirations[t := expirations[t] - {key}];
        }
        entries := entries - {key};
      }
    }

    method Get(key: string, now: Time) returns (r: Option<V>)
      requires Valid()
      modifies this
      ensures Valid()
      ensures r == if key in old(entries) && !Expired(old(entries)[key], now)
                   then Some(old(entries)[key].value) else None
      ensures entries == if key in old(entries) && Expired(old(entries)[key], now)
                         then old(entries) - {key} else old(entries)
    {
      if key !in entries { return None; }
      if Expired(entries[key], now) {
        var _ := Remove(key);
        return None;
      }
      r := Some(entries[key].value);
    }

    /** Drops exactly the entries that expired before now. */
    method Cleanup(now: Time)
      requires Valid()
      modifies this
      ensures Valid()
      ensures entries == map k | k in old(entries) && !Stale(old(entries)[k], now) :: old(entries)[k]
    {
      if forall t :: t in expirations ==> t > now { // the first bucket, if any, is in the future
        return;
      }
      var unexpired := map t | t in expirations && t >= now :: expirations[t];
      var todo := set t | t in expirations && t < now;
      while todo != {}
        invariant todo <= (set t | t in expirations && t < now)
        invariant expirations == old(expirations)
        invariant entries == Left(old(entries), now, todo)
        decreases todo
      {
        var t :| t in todo;
        LeftLess(old(entries), now, todo, t, expirations[t]);
        entries := entries - expirations[t];
        todo := todo - {t};
      }
      expirations := unexpired;
    }
  }

  // ----- namespaces -----------------------------------------------------------------

  datatype CacheId =
    | Global
    | GlobalTest(name: string)
    | Trigger(database: string, trigger: string)
    | TriggerTest(name: string)

  const NANOS: nat := 1_000_000_000

  function DefaultTtl(id: CacheId): Option<nat> {
    match id
    case Global => None
    case Trigger(_, _) => None
    case GlobalTest(_) => Some(30 * 60 * NANOS)
    case TriggerTest(_) => Some(30 * 60 * NANOS)
  }

  class CacheStore<V> {
    var namespaces: map<CacheId, ExpiringCache<V>>
    const lastCleanup: Time // never updated after construction
    const cleanupInterval: nat

    ghost function Footprint(): set<object>
      reads this
    {
      {this} + set id | id in namespaces :: namespaces[id]
    }

    ghost predicate Valid()
      reads this, Footprint()
    {
      && (forall id :: id in namespaces ==> namespaces[id].Valid() && namespaces[id].defaultTtl == DefaultTtl(id))
      && (forall i, j :: i in namespaces && j in namespaces && i != j ==> namespaces[i] != namespaces[j])
    }

    /** The entry physically present under a namespace and key. */
    ghost function Stored(id: CacheId, key: string): Option<Entry<V>>
      reads this, Footprint()
    {
      if id in namespaces && key in namespaces[id].entries then Some(namespaces[id].entries[key]) else None
    }

    constructor (now: Time, cleanupInterval: nat)
      ensures Valid() && fresh(Footprint())
      ensures namespaces == map[] && lastCleanup == now && this.cleanupInterval == cleanupInterval
    {
      namespaces := map[];
      lastCleanup := now;
      this.cleanupInterval := cleanupInterval;
    }

    predicate ShouldRunCleanup(now: Time) {
      Max(now - lastCleanup, 0) >= cleanupInterval
    }

    method Cleanup(now: Time)
      requires Valid()
      modifies Footprint()
      ensures Valid() && Footprint() <= old(Footprint())
      // it runs once the interval has passed, and every time from then on
      ensures var runs := cleanupInterval == 0 || now - lastCleanup >= cleanupInterval;
              && (forall i, k :: Stored(i, k) ==
                    var e := old(Stored(i, k));
                    if runs && e.Some? && Stale(e.value, now) then None else e)
              && (runs ==> forall i :: i in namespaces ==> namespaces[i].entries != map[])
    {
      if !ShouldRunCleanup(now) { return; }
      var todo := namespaces.Keys;
      while todo != {}
        invariant todo <= namespaces.Keys && namespaces == old(namespaces)
        invariant Valid()
        invariant forall i, k :: Stored(i, k) ==
                    var e := old(Stored(i, k));
                    if i !in todo && e.Some? && Stale(e.value, now) then None else e
        decreases todo
      {
        var id :| id in todo;
        namespaces[id].Cleanup(now);
        todo := todo - {id};
      }
      namespaces := map id | id in namespaces && namespaces[id].entries != map[] :: namespaces[id];
    }

    /** Makes sure that the namespace exists. */
    method Open(id: CacheId)
      requires Valid()
      modifies this
      ensures Valid() && fresh(Footprint() - old(Footprint()))
      ensures namespaces.Keys == old(namespaces.Keys) + {id}
      ensures forall i, k :: Stored(i, k) == old(Stored(i, k))
    {
      if id !in namespaces {
        var cache := new ExpiringCache<V>(DefaultTtl(id));
        namespaces := namespaces[id := cache];
      }
    }

    method Put(id: CacheId, key: string, value: V, ttl: Option<nat>, now: Time)
      requires Valid()
      modifies Footprint()
      ensures Valid() && fresh(Footprint() - old(Footprint()))
      ensures forall i, k :: Stored(i, k) ==
                if i == id && k == key then Some(Stamped(value, ttl, DefaultTtl(id), now)) else old(Stored(i, k))
      ensures namespaces.Keys == old(namespaces.Keys) + {id}
      // it expires after the lifetime given, or in a test namespace after half an hour
      ensures Stored(id, key) ==
              Some(Entry(value, if ttl.Some? then Some(now + ttl.value)
                                else if id.GlobalTest? || id.TriggerTest? then Some(now + 30 * 60 * 1_000_000_000)
                                else None))
    {
      var entry := Stamped(value, ttl, None, now);
      Open(id);
      namespaces[id].Insert(key, entry, now);
    }

    method Get(id: CacheId, key: string, now: Time) returns (r: Option<V>)
      requires Valid()
      modifies Footprint()
      ensures Valid() && Footprint() == old(Footprint())
      ensures var e := old(Stored(id, key));
              r == if e.Some? && !Expired(e.value, now) then Some(e.value.value) else None
      ensures forall i, k :: Stored(i, k) ==
                var e := old(Stored(i, k));
                if i == id && k == key && e.Some? && Expired(e.value, now) then None else e
    {
      if id !in namespaces { return None; }
      r := namespaces[id].Get(key, now);
    }

    method Delete(id: CacheId, key: string) returns (present: bool)
      requires Valid()
      modifies Footprint()
      ensures Valid() && Footprint() == old(Footprint())
      ensures present <==> old(Stored(id, key)).Some?
      ensures forall i, k :: Stored(i, k) == if i == id && k == key then None else old(Stored(i, k))
    {
      if id !in namespaces { return false; }
      present := namespaces[id].Remove(key);
    }

    method DropTriggerCache(database: string, trigger: string) returns (present: bool)
      requires Valid()
      modifies this
      ensures Valid() && Footprint() <= old(Footprint())
      ensures present <==> Trigger(database, trigger) in old(namespaces)
      ensures namespaces == old(namespaces) - {Trigger(database, trigger)}
      ensures forall i, k :: Stored(i, k) == if i == Trigger(database, trigger) then None else old(Stored(i, k))
    {
      present := Trigger(database, trigger) in namespaces;
      namespaces := namespaces - {Trigger(database, trigger)};
    }

    method DropAllTriggerCachesForDb(database: string)
      requires Valid()
      modifies this
      ensures Valid() && Footprint() <= old(Footprint())
      ensures forall i :: i in namespaces <==> i in old(namespaces) && !(i.Trigger? && i.database == database)
      ensures forall i, k :: Stored(i, k) == if i.Trigger? && i.database == database then None else old(Stored(i, k))
    {
      namespaces := map id | id in namespaces && !(id.Trigger? && id.database == database) :: namespaces[id];
    }
  }

  // ----- the plain map a caller may have in mind --------------------------------------

  datatype Op<V> =
    | Put(id: CacheId, key: string, value: V, ttl: Option<nat>)
    | Get(id: CacheId, key: string)
    | Delete(id: CacheId, key: string)
    | Cleanup
    | DropTrigger(database: string, trigger: string)
    | DropDatabase(database: string)

  datatype Timed<V> = At(now: Time, op: Op<V>)

  type Plain<V> = map<(CacheId, string), Entry<V>>

  /** Puts that were neither deleted nor dropped; cleanup and get change nothing. */
  function PlainStep<V>(m: Plain<V>, x: Timed<V>): Plain<V> {
    match x.op
    case Put(id, key, value, ttl) => m[(id, key) := Stamped(value, ttl, DefaultTtl(id), x.now)]
    case Get(_, _) => m
    case Delete(id, key) => m - {(id, key)}
    case Cleanup => m
    case DropTrigger(database, trigger) => map p | p in m && p.0 != Trigger(database, trigger) :: m[p]
    case DropDatabase(database) => map p | p in m && !(p.0.Trigger? && p.0.database == database) :: m[p]
  }

  function PlainRun<V>(ops: seq<Timed<V>>): Plain<V> {
    if ops == [] then map[] else PlainStep(PlainRun(ops[..|ops| - 1]), ops[|ops| - 1])
  }

  /** What the plain map, filtered by expiry, answers. */
  function PlainAnswer<V>(m: Plain<V>, id: CacheId, key: string, now: Time): Option<V> {
    if (id, key) in m && !Expired(m[(id, key)], now) then Some(m[(id, key)].value) else None
  }

  ghost predicate ClockNeverGoesBack<V>(ops: seq<Timed<V>>) {
    forall i, j :: 0 <= i < j < |ops| ==> ops[i].now <= ops[j].now
  }

  /** The store holds entries of the plain map only, and lacks only expired ones. */
  ghost predicate Tracks<V>(store: CacheStore<V>, m: Plain<V>, now: Time)
    reads store, store.Footprint()
  {
    forall id, key ::
      var e := store.Stored(id, key);
      && (e.Some? ==> (id, key) in m && m[(id, key)] == e.value)
      && (e.None? && (id, key) in m ==> Expired(m[(id, key)], now))
  }

  /** One operation; `answer` is the result of a get. */
  method Perform<V>(store: CacheStore<V>, x: Timed<V>, ghost m: Plain<V>, ghost before: Time)
    returns (answer: Option<V>)
    requires store.Valid() && Tracks(store, m, before) && before <= x.now
    modifies store.Footprint()
    ensures store.Valid() && fresh(store.Footprint() - old(store.Footprint()))
    ensures Tracks(store, PlainStep(m, x), x.now)
    ensures x.op.Get? ==> answer == PlainAnswer(m, x.op.id, x.op.key, x.now)
    ensures !x.op.Get? ==> answer == None
  {
    answer := None;
    match x.op {
      case Put(id, key, value, ttl) => store.Put(id, key, value, ttl, x.now);
      case Get(id, key) => answer := store.Get(id, key, x.now);
      case Delete(id, key) => var _ := store.Delete(id, key);
      case Cleanup => store.Cleanup(x.now);
      case DropTrigger(database, trigger) => var _ := store.DropTriggerCache(database, trigger);
      case DropDatabase(database) => store.DropAllTriggerCachesForDb(database);
    }
  }

  /** The answers to the gets among the first operations are those of the plain map. */
  ghost predicate Answered<V>(ops: seq<Timed<V>>, answers: seq<Option<V>>)
    requires |answers| <= |ops|
  {
    forall n :: 0 <= n < |answers| && ops[n].op.Get? ==>
      answers[n] == PlainAnswer(PlainRun(ops[..n]), ops[n].op.id, ops[n].op.key, ops[n].now)
  }

  // ----- the answers, read off the operations -------------------------------------------

  predicate Puts<V>(op: Op<V>, id: CacheId, key: string) {
    op.Put? && op.id == id && op.key == key
  }

  /** The operation takes away what was put: by its key, its trigger or its database. */
  predicate TakesAway<V>(op: Op<V>, id: CacheId, key: string) {
    || (op.Delete? && op.id == id && op.key == key)
    || (op.DropTrigger? && id.Trigger? && op.database == id.database && op.trigger == id.trigger)
    || (op.DropDatabase? && id.Trigger? && op.database == id.database)
  }

  /** Before the n-th operation the key was put last by the m-th, and not taken away since. */
  ghost predicate IsLastPut<V>(ops: seq<Timed<V>>, m: nat, n: nat, id: CacheId, key: string)
    requires n <= |ops|
  {
    && m < n && Puts(ops[m].op, id, key)
    && forall i :: m < i < n ==> !Puts(ops[i].op, id, key) && !TakesAway(ops[i].op, id, key)
  }

  /** What was put at `t0` is there at `now`: before the end of the lifetime given, or without
      one for ever, and in a test namespace for half an hour. */
  predicate Lives<V>(put: Op<V>, t0: Time, now: Time)
    requires put.Put?
  {
    if put.ttl.Some? then now < t0 + put.ttl.value
    else put.id.Global? || put.id.Trigger? || now < t0 + 30 * 60 * 1_000_000_000
  }

  /** A get answers the value put last if it lives, and nothing otherwise. */
  ghost predicate AnswersLastPut<V>(ops: seq<Timed<V>>, n: nat, answer: Option<V>)
    requires n < |ops| && ops[n].op.Get?
  {
    var Get(id, key) := ops[n].op;
    && (forall m: nat :: IsLastPut(ops, m, n, id, key) ==>
          answer == if Lives(ops[m].op, ops[m].now, ops[n].now) then Some(ops[m].op.value) else None)
    && (answer.Some? ==> exists m: nat :: IsLastPut(ops, m, n, id, key))
  }

  lemma {:induction false} PutStays<V>(ops: seq<Timed<V>>, m: nat, n: nat, id: CacheId, key: string)
    requires n <= |ops| && IsLastPut(ops, m, n, id, key)
    ensures (id, key) in PlainRun(ops[..n])
    ensures PlainRun(ops[..n])[(id, key)] == Stamped(ops[m].op.value, ops[m].op.ttl, DefaultTtl(id), ops[m].now)
    decreases n
  {
    assert ops[..n][..n - 1] == ops[..n - 1];
    if m < n - 1 {
      PutStays(ops, m, n - 1, id, key);
      assert !Puts(ops[n - 1].op, id, key) && !TakesAway(ops[n - 1].op, id, key);
    }
  }

  lemma {:induction false} KeptWasPut<V>(ops: seq<Timed<V>>, n: nat, id: CacheId, key: string) returns (m: nat)
    requires n <= |ops| && (id, key) in PlainRun(ops[..n])
    ensures IsLastPut(ops, m, n, id, key)
    decreases n
  {
    assert n > 0 && ops[..n][..n - 1] == ops[..n - 1];
    if Puts(ops[n - 1].op, id, key) {
      m := n - 1;
    } else {
      m := KeptWasPut(ops, n - 1, id, key);
    }
  }

  lemma PlainAnswersLastPut<V>(ops: seq<Timed<V>>, n: nat)
    requires n < |ops| && ops[n].op.Get?
    ensures AnswersLastPut(ops, n, PlainAnswer(PlainRun(ops[..n]), ops[n].op.id, ops[n].op.key, ops[n].now))
  {
    var Get(id, key) := ops[n].op;
    forall m: nat | IsLastPut(ops, m, n, id, key)
      ensures PlainAnswer(PlainRun(ops[..n]), id, key, ops[n].now) ==
              if Lives(ops[m].op, ops[m].now, ops[n].now) then Some(ops[m].op.value) else None
    {
      PutStays(ops, m, n, id, key);
    }
    if (id, key) in PlainRun(ops[..n]) {
      var m := KeptWasPut(ops, n, id, key);
    }
  }

  lemma AllAnswerLastPut<V>(ops: seq<Timed<V>>, answers: seq<Option<V>>)
    requires |answers| == |ops| && Answered(ops, answers)
    ensures forall n :: 0 <= n < |ops| && ops[n].op.Get? ==> AnswersLastPut(ops, n, answers[n])
  {
    forall n | 0 <= n < |ops| && ops[n].op.Get? ensures AnswersLastPut(ops, n, answers[n]) {
      PlainAnswersLastPut(ops, n);
    }
  }

  lemma AnsweredMore<V>(ops: seq<Timed<V>>, answers: seq<Option<V>>, answer: Option<V>)
    requires |answers| < |ops| && Answered(ops, answers)
    requires var x := ops[|answers|];
             x.op.Get? ==> answer == PlainAnswer(PlainRun(ops[..|answers|]), x.op.id, x.op.key, x.now)
    ensures Answered(ops, answers + [answer])
  {
    var more := answers + [answer];
    forall n | 0 <= n < |more| && ops[n].op.Get?
      ensures more[n] == PlainAnswer(PlainRun(ops[..n]), ops[n].op.id, ops[n].op.key, ops[n].now)
    {
      if n < |answers| { assert more[n] == answers[n]; }
    }
  }

  /** Every run of the store, over all namespaces, with a clock that never goes back:
      every get answers what the plain map filtered by expiry would, which is the value put
      last, and not taken away since, while it lives. */
  method Replay<V>(start: Time, cleanupInterval: nat, ops: seq<Timed<V>>) returns (answers: seq<Option<V>>)
    requires ClockNeverGoesBack(ops)
    ensures |answers| == |ops| && Answered(ops, answers)
    ensures forall n :: 0 <= n < |ops| && ops[n].op.Get? ==> AnswersLastPut(ops, n, answers[n])
  {
    var store := new CacheStore<V>(start, cleanupInterval);
    answers := [];
    ghost var before, plain := if ops == [] then 0 else ops[0].now, PlainRun(ops[..0]);
    for n := 0 to |ops|
      invariant store.Valid() && fresh(store.Footprint())
      invariant n < |ops| ==> before <= ops[n].now
      invariant n > 0 ==> before == ops[n - 1].now
      invariant plain == PlainRun(ops[..n]) && Tracks(store, plain, before)
      invariant |answers| == n && Answered(ops, answers)
    {
      var answer := Perform(store, ops[n], plain, before);
      AnsweredMore(ops, answers, answer);
      answers := answers + [answer];
      before, plain := ops[n].now, PlainStep(plain, ops[n]);
      assert ops[..n + 1][..n] == ops[..n];
    }
    AllAnswerLastPut(ops, answers);
  }
}
