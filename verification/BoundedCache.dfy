/**
 `BoundedCache` (backend/src/utils/BoundedCache.js): a Map whose insertion order
 doubles as recency order, with a capacity and a per-entry expiry. `get` and
 `set` move a key to the end; when full, `set` drops keys from the front.
 */
module BoundedCache {
  import opened Wrappers
  import JsMap
  import Sorting

  datatype Entry<V> = Entry(value: V, expiresAt: int, lastAccessAt: int)

  type Store<V> = JsMap.Map<string, Entry<V>>

  datatype Stats = Stats(hits: nat, misses: nat, evictions: nat, sets: nat)

  // ---------------------------------------------------------------- specification

  predicate Live<V>(s: Store<V>, k: string, now: int) {
    k in s.entries && now <= s.entries[k].expiresAt
  }

  /** The store after `get`: an expired entry is dropped, a live one becomes the most recent. */
  function Touch<V>(s: Store<V>, k: string, now: int): Store<V> {
    if k !in s.entries then s
    else if s.entries[k].expiresAt < now then JsMap.Delete(s, k)
    else JsMap.MoveToEnd(s, k, s.entries[k].(lastAccessAt := now))
  }

  function Answer<V>(s: Store<V>, k: string, now: int): Option<V> {
    if Live(s, k, now) then Some(s.entries[k].value) else None
  }

  function Expire<V>(s: Store<V>, k: string, now: int): Store<V> {
    if k in s.entries && s.entries[k].expiresAt < now then JsMap.Delete(s, k) else s
  }

  function Evict<V>(s: Store<V>, max: nat): (r: Store<V>)
    requires max > 0
    ensures |r.order| < max
    ensures forall k :: k in r.entries ==> k in s.entries && r.entries[k] == s.entries[k]
    decreases |s.order|
  {
    if |s.order| < max then s
    else
      WithoutHead(s.order);
      Evict(JsMap.Delete(s, s.order[0]), max)
  }

  function Insert<V>(s: Store<V>, max: nat, k: string, v: V, expiresAt: int, now: int): (r: Store<V>)
    requires max > 0
    ensures |r.order| <= max
  {
    JsMap.Set(Evict(JsMap.Delete(s, k), max), k, Entry(v, expiresAt, now))
  }

  /** `_cleanup`, over the keys it still has to visit. */
  function Purge<V>(s: Store<V>, keys: seq<string>, now: int): Store<V>
    decreases |keys|
  {
    if keys == [] then s else Purge(Expire(s, keys[0], now), keys[1..], now)
  }

  function Cleanup<V>(s: Store<V>, now: int): Store<V> { Purge(s, s.order, now) }

  /** The keys `entries()` yields, in order. */
  function LiveKeys<V>(s: Store<V>, keys: seq<string>, now: int): (r: seq<string>)
    ensures forall k :: k in r <==> k in keys && Live(s, k, now)
  {
    if keys == [] then []
    else
      var rest := LiveKeys(s, keys[1..], now);
      assert keys == [keys[0]] + keys[1..];
      if Live(s, keys[0], now) then [keys[0]] + rest else rest
  }

  lemma WithoutHead(s: seq<string>)
    requires s != [] && Sorting.NoDup(s)
    ensures JsMap.Without(s, s[0]) == s[1..]
  {
    assert s[0] !in s[1..];
  }

  // ---------------------------------------------------------------- the class

  class Cache<V> {
    const max: nat
    const ttl: int
    var store: Store<V>
    var stats: Stats

    ghost predicate Valid() reads this {
      && max > 0
      && |store.order| <= max
    }

    constructor (maxEntries: nat, ttlMs: int)
      requires maxEntries > 0
      ensures Valid() && store == JsMap.Empty() && max == maxEntries && ttl == ttlMs
      ensures stats == Stats(0, 0, 0, 0)
    {
      max := maxEntries;
      ttl := ttlMs;
      store := JsMap.Empty();
      stats := Stats(0, 0, 0, 0);
    }

    method Get(key: string, now: int) returns (value: Option<V>)
      requires Valid()
      modifies this
      ensures Valid()
      ensures value == Answer(old(store), key, now)
      ensures store == Touch(old(store), key, now)
      ensures stats == if value.Some? then old(stats).(hits := old(stats.hits) + 1)
                       else old(stats).(misses := old(stats.misses) + 1)
    {
      TouchSize(store, key, now);
      if key !in store.entries {
        stats := stats.(misses := stats.misses + 1);
        return None;
      }
      var entry := store.entries[key];
      if entry.expiresAt < now {
        store := JsMap.Delete(store, key);
        stats := stats.(misses := stats.misses + 1);
        return None;
      }
      store := JsMap.Delete(store, key);
      entry := entry.(lastAccessAt := now);
      store := JsMap.Set(store, key, entry);
      stats := stats.(hits := stats.hits + 1);
      return Some(entry.value);
    }

    /** `set(key, value, ttlOverride)`. */
    method Put(key: string, value: V, ttlOverride: Option<int>, now: int)
      requires Valid()
      modifies this
      ensures Valid()
      ensures store == Insert(old(store), max, key, value,
                              now + (if ttlOverride.Some? then ttlOverride.value else ttl), now)
      ensures stats.sets == old(stats.sets) + 1
      ensures stats.hits == old(stats.hits) && stats.misses == old(stats.misses)
      ensures stats.evictions - old(stats.evictions)
              == if key !in old(store).entries && |old(store).order| == max then 1 else 0
    {
      hide JsMap.Without, Sorting.NoDup, JsMap.Set, JsMap.Delete;
      ghost var before := store;
      WithoutLength(store.order, key);
      var expiresAt := now + (if ttlOverride.Some? then ttlOverride.value else ttl);
      if key in store.entries {
        store := JsMap.Delete(store, key);
      }
      assert store == JsMap.Delete(before, key);
      ghost var room := store;
      ghost var evicted := stats.evictions;
      while |store.order| >= max
        invariant Evict(store, max) == Evict(room, max)
        invariant |store.order| <= max
        invariant |store.order| + (stats.evictions - evicted) == |room.order|
        invariant stats == old(stats).(evictions := stats.evictions)
        invariant |store.order| == |room.order| || (|room.order| == max && |store.order| == max - 1)
        decreases |store.order|
      {
        var oldest := store.order[0];
        WithoutHead(store.order);
        store := JsMap.Delete(store, oldest);
        stats := stats.(evictions := stats.evictions + 1);
      }
      store := JsMap.Set(store, key, Entry(value, expiresAt, now));
      stats := stats.(sets := stats.sets + 1);
    }

    method Has(key: string, now: int) returns (present: bool)
      requires Valid()
      modifies this`store
      ensures Valid()
      ensures present == Live(old(store), key, now)
      ensures store == Expire(old(store), key, now)
    {
      WithoutLength(store.order, key);
      if key !in store.entries { return false; }
      if store.entries[key].expiresAt < now {
        store := JsMap.Delete(store, key);
        return false;
      }
      return true;
    }

    method Remove(key: string)
      requires Valid()
      modifies this`store
      ensures Valid() && store == JsMap.Delete(old(store), key)
    {
      WithoutLength(store.order, key);
      store := JsMap.Delete(store, key);
    }

    method Clear()
      requires Valid()
      modifies this`store
      ensures Valid() && store == JsMap.Empty()
    {
      store := JsMap.Empty();
    }

    /** `_cleanup`: removes exactly the expired entries (see CleanupKeepsLive). */
    method CleanUp(now: int)
      requires Valid()
      modifies this`store
      ensures Valid() && store == Cleanup(old(store), now)
    {
      var keys := store.order;
      var i := 0;
      while i < |keys|
        invariant 0 <= i <= |keys|
        invariant Purge(store, keys[i..], now) == Cleanup(old(store), now)
        invariant |store.order| <= max
      {
        var key := keys[i];
        WithoutLength(store.order, key);
        PurgeStep(store, keys, i, now);
        if key in store.entries && store.entries[key].expiresAt < now {
          store := JsMap.Delete(store, key);
        }
        i := i + 1;
      }
    }
  }

  lemma {:induction false} WithoutLength(s: seq<string>, k: string)
    ensures |JsMap.Without(s, k)| <= |s|
    ensures Sorting.NoDup(s) ==> |JsMap.Without(s, k)| == |s| - (if k in s then 1 else 0)
  {
    if s != [] {
      assert s == [s[0]] + s[1..];
      assert Sorting.NoDup(s) ==> Sorting.NoDup(s[1..]) && s[0] !in s[1..];
      WithoutLength(s[1..], k);
    }
  }

  lemma PurgeStep<V>(s: Store<V>, keys: seq<string>, i: nat, now: int)
    requires i < |keys|
    ensures Purge(s, keys[i..], now) == Purge(Expire(s, keys[i], now), keys[i + 1..], now)
  {
    assert keys[i..][1..] == keys[i + 1..];
  }

  lemma TouchSize<V>(s: Store<V>, k: string, now: int)
    ensures |Touch(s, k, now).order| <= |s.order|
  {
    WithoutLength(s.order, k);
  }

  // ---------------------------------------------------------------- what the cache promises

  /** Below capacity nothing but the written key changes. */
  lemma InsertWithRoom<V>(s: Store<V>, max: nat, k: string, v: V, expiresAt: int, now: int)
    requires max > 0
    requires k in s.entries || |s.order| < max
    requires |s.order| <= max
    ensures Insert(s, max, k, v, expiresAt, now).entries == s.entries[k := Entry(v, expiresAt, now)]
  {
    WithoutLength(s.order, k);
    assert (s.entries - {k})[k := Entry(v, expiresAt, now)] == s.entries[k := Entry(v, expiresAt, now)];
  }

  /** At capacity a new key costs exactly the least recently used one. */
  lemma InsertWhenFull<V>(s: Store<V>, max: nat, k: string, v: V, expiresAt: int, now: int)
    requires max > 0
    requires k !in s.entries && |s.order| == max
    ensures Insert(s, max, k, v, expiresAt, now).entries
            == (s.entries - {s.order[0]})[k := Entry(v, expiresAt, now)]
  {
    DeleteMissing(s, k);
    EvictOne(s, max);
  }

  lemma DeleteMissing<V>(s: Store<V>, k: string)
    requires k !in s.entries
    ensures JsMap.Delete(s, k) == s
  {
    assert s.entries - {k} == s.entries;
  }

  lemma EvictOne<V>(s: Store<V>, max: nat)
    requires max > 0 && |s.order| == max
    ensures Evict(s, max) == JsMap.Delete(s, s.order[0])
  {
    WithoutHead(s.order);
    assert |JsMap.Delete(s, s.order[0]).order| < max;
  }

  lemma {:induction false} PurgeEntries<V>(s: Store<V>, keys: seq<string>, now: int, k: string)
    ensures k in Purge(s, keys, now).entries <==> k in s.entries && (k in keys ==> Live(s, k, now))
    ensures k in Purge(s, keys, now).entries ==> Purge(s, keys, now).entries[k] == s.entries[k]
    decreases |keys|
  {
    if keys != [] {
      assert keys == [keys[0]] + keys[1..];
      PurgeEntries(Expire(s, keys[0], now), keys[1..], now, k);
    }
  }

  /** Periodic cleanup keeps exactly the live entries, so no later read can notice it. */
  lemma CleanupKeepsLive<V>(s: Store<V>, now: int, k: string)
    ensures k in Cleanup(s, now).entries <==> Live(s, k, now)
    ensures k in Cleanup(s, now).entries ==> Cleanup(s, now).entries[k] == s.entries[k]
    ensures forall later :: now <= later ==> Answer(Cleanup(s, now), k, later) == Answer(s, k, later)
  {
    PurgeEntries(s, s.order, now, k);
  }

  // ---------------------------------------------------------------- runs

  datatype Op<V> =
    | GetOp(key: string, now: int)
    | PutOp(key: string, value: V, expiresAt: int, now: int)
    | HasOp(key: string, now: int)
    | RemoveOp(key: string)
    | ClearOp
    | CleanOp(now: int)

  function Apply<V>(s: Store<V>, max: nat, op: Op<V>): Store<V>
    requires max > 0
  {
    match op
    case GetOp(k, now) => Touch(s, k, now)
    case PutOp(k, v, e, now) => Insert(s, max, k, v, e, now)
    case HasOp(k, now) => Expire(s, k, now)
    case RemoveOp(k) => JsMap.Delete(s, k)
    case ClearOp => JsMap.Empty()
    case CleanOp(now) => Cleanup(s, now)
  }

  function Run<V>(s: Store<V>, max: nat, ops: seq<Op<V>>): Store<V>
    requires max > 0
    decreases |ops|
  {
    if ops == [] then s else Run(Apply(s, max, ops[0]), max, ops[1..])
  }

  /** What a lossless, never-expiring dictionary would hold for `k`: the last write wins. */
  function LastWrite<V>(was: Option<(V, int)>, ops: seq<Op<V>>, k: string): Option<(V, int)>
    decreases |ops|
  {
    if ops == [] then was
    else
      var now' :=
        match ops[0]
        case PutOp(j, v, e, _) => if j == k then Some((v, e)) else was
        case RemoveOp(j) => if j == k then None else was
        case ClearOp => None
        case _ => was;
      LastWrite(now', ops[1..], k)
  }

  ghost predicate Agrees<V>(s: Store<V>, k: string, last: Option<(V, int)>) {
    k in s.entries ==> last == Some((s.entries[k].value, s.entries[k].expiresAt))
  }

  lemma ApplyAgrees<V>(s: Store<V>, max: nat, op: Op<V>, k: string, last: Option<(V, int)>)
    requires max > 0 && Agrees(s, k, last)
    ensures Agrees(Apply(s, max, op), k, LastWrite(last, [op], k))
  {
    match op
    case CleanOp(now) => PurgeEntries(s, s.order, now, k);
    case _ =>
  }

  /**
   The cache may forget, but it never lies: whatever sequence of operations ran,
   a hit returns the value most recently written under that key, before its expiry.
   */
  lemma {:induction false} NeverWrongOrExpired<V>(s: Store<V>, max: nat, ops: seq<Op<V>>, k: string,
                                                  last: Option<(V, int)>, now: int)
    requires max > 0 && Agrees(s, k, last)
    ensures var hit := Answer(Run(s, max, ops), k, now);
            hit.Some? ==> exists e :: LastWrite(last, ops, k) == Some((hit.value, e)) && now <= e
    decreases |ops|
  {
    if ops != [] {
      ApplyAgrees(s, max, ops[0], k, last);
      assert LastWrite(last, ops, k) == LastWrite(LastWrite(last, [ops[0]], k), ops[1..], k);
      NeverWrongOrExpired(Apply(s, max, ops[0]), max, ops[1..], k, LastWrite(last, [ops[0]], k), now);
    }
  }

  // ---------------------------------------------------------------- recency

  /** The keys used more recently than `k`. */
  ghost function Newer(order: seq<string>, k: string): set<string> {
    if order == [] then {}
    else if order[0] == k then set j | j in order[1..]
    else Newer(order[1..], k)
  }

  lemma {:induction false} NewerAppend(order: seq<string>, j: string, k: string)
    requires k in order
    ensures Newer(order + [j], k) == Newer(order, k) + {j}
  {
    assert (order + [j])[1..] == order[1..] + [j];
    if order[0] != k {
      NewerAppend(order[1..], j, k);
    }
  }

  lemma {:induction false} NewerWithout(order: seq<string>, j: string, k: string)
    requires j != k
    ensures Newer(JsMap.Without(order, j), k) == Newer(order, k) - {j}
  {
    if order != [] {
      assert order == [order[0]] + order[1..];
      NewerWithout(order[1..], j, k);
      if order[0] == k {
        assert JsMap.Without(order, j) == [k] + JsMap.Without(order[1..], j);
      } else if order[0] != j {
        assert JsMap.Without(order, j)[1..] == JsMap.Without(order[1..], j);
      }
    }
  }

  lemma {:induction false} NewerLast(order: seq<string>, k: string)
    requires k !in order
    ensures Newer(order + [k], k) == {}
  {
    if order == [] {
      assert [k][1..] == [];
    } else {
      assert (order + [k])[1..] == order[1..] + [k];
      NewerLast(order[1..], k);
    }
  }

  /** `k` is held, unexpired up to `horizon`, and everything newer than it lies in `others`. */
  ghost predicate Safe<V>(s: Store<V>, k: string, v: V, horizon: int, others: set<string>) {
    && k in s.entries
    && s.entries[k].value == v && horizon <= s.entries[k].expiresAt
    && Newer(s.order, k) <= others
  }

  /** An operation that leaves `k` alone (reading it is fine) and only uses keys in `others`. */
  predicate Harmless<V>(op: Op<V>, k: string, horizon: int, others: set<string>) {
    match op
    case GetOp(j, now) => now <= horizon && (j == k || j in others)
    case PutOp(j, _, _, now) => now <= horizon && j != k && j in others
    case HasOp(_, now) => now <= horizon
    case RemoveOp(j) => j != k
    case ClearOp => false
    case CleanOp(now) => now <= horizon
  }

  lemma DeleteKeepsSafe<V>(s: Store<V>, j: string, k: string, v: V, horizon: int, others: set<string>)
    requires Safe(s, k, v, horizon, others) && j != k
    ensures Safe(JsMap.Delete(s, j), k, v, horizon, others)
  {
    NewerWithout(s.order, j, k);
  }

  lemma {:induction false} PurgeKeepsSafe<V>(s: Store<V>, keys: seq<string>, now: int,
                                             k: string, v: V, horizon: int, others: set<string>)
    requires Safe(s, k, v, horizon, others) && now <= horizon
    ensures Safe(Purge(s, keys, now), k, v, horizon, others)
    decreases |keys|
  {
    if keys != [] {
      if keys[0] != k { DeleteKeepsSafe(s, keys[0], k, v, horizon, others); }
      PurgeKeepsSafe(Expire(s, keys[0], now), keys[1..], now, k, v, horizon, others);
    }
  }

  lemma EvictKeepsSafe<V>(s: Store<V>, max: nat, k: string, v: V, horizon: int, others: set<string>)
    requires max > 0 && |s.order| <= max
    requires Safe(s, k, v, horizon, others) && |others| < max - 1
    ensures Safe(Evict(s, max), k, v, horizon, others)
  {
    if |s.order| == max {
      OldestIsNot(s.order, max, k, others);
      DeleteKeepsSafe(s, s.order[0], k, v, horizon, others);
      EvictOne(s, max);
    }
  }

  lemma AppendKeepsSafe<V>(s: Store<V>, j: string, e: Entry<V>,
                           k: string, v: V, horizon: int, others: set<string>)
    requires Safe(s, k, v, horizon, others - {j}) && j !in s.entries && j in others
    ensures Safe(JsMap.Set(s, j, e), k, v, horizon, others)
  {
    NewerAppend(s.order, j, k);
  }

  /** The front of a full cache is not `k` while fewer than `max` other keys are in play. */
  lemma InsertKeepsSafe<V>(s: Store<V>, max: nat, j: string, w: V, e: int, now: int,
                           k: string, v: V, horizon: int, others: set<string>)
    requires max > 0 && |s.order| <= max
    requires Safe(s, k, v, horizon, others) && k !in others && j in others && |others| < max
    ensures Safe(Insert(s, max, j, w, e, now), k, v, horizon, others)
  {
    var d := JsMap.Delete(s, j);
    assert Safe(d, k, v, horizon, others - {j}) by { NewerWithout(s.order, j, k); }
    WithoutLength(s.order, j);
    EvictKeepsSafe(d, max, k, v, horizon, others - {j});
    AppendKeepsSafe(Evict(d, max), j, Entry(w, e, now), k, v, horizon, others);
  }

  lemma OldestIsNot(order: seq<string>, max: nat, k: string, others: set<string>)
    requires Sorting.NoDup(order) && |order| == max > 0
    requires Newer(order, k) <= others && |others| < max - 1
    ensures order[0] != k
  {
    if order[0] == k {
      forall x | x in order[1..] ensures x in others {
        assert x in Newer(order, k);
      }
      JsMap.NoDupBound(order[1..], others);
    }
  }

  lemma TouchKeepsSafe<V>(s: Store<V>, j: string, now: int, k: string, v: V, horizon: int, others: set<string>)
    requires Safe(s, k, v, horizon, others) && now <= horizon && (j == k || j in others)
    ensures Safe(Touch(s, j, now), k, v, horizon, others)
  {
    if j == k {
      NewerLast(JsMap.Without(s.order, k), k);
    } else {
      DeleteKeepsSafe(s, j, k, v, horizon, others);
      NewerAppend(JsMap.Without(s.order, j), j, k);
    }
  }

  lemma {:induction false} RunSize<V>(s: Store<V>, max: nat, ops: seq<Op<V>>)
    requires max > 0 && |s.order| <= max
    ensures |Run(s, max, ops).order| <= max
    decreases |ops|
  {
    if ops != [] {
      ApplySize(s, max, ops[0]);
      RunSize(Apply(s, max, ops[0]), max, ops[1..]);
    }
  }

  lemma {:induction false} PurgeSize<V>(s: Store<V>, keys: seq<string>, now: int)
    ensures |Purge(s, keys, now).order| <= |s.order|
    decreases |keys|
  {
    if keys != [] {
      WithoutLength(s.order, keys[0]);
      PurgeSize(Expire(s, keys[0], now), keys[1..], now);
    }
  }

  /** The hard cap holds after every operation. */
  lemma ApplySize<V>(s: Store<V>, max: nat, op: Op<V>)
    requires max > 0 && |s.order| <= max
    ensures |Apply(s, max, op).order| <= max
  {
    match op
    case GetOp(k, now) => TouchSize(s, k, now);
    case PutOp(_, _, _, _) =>
    case HasOp(k, now) => WithoutLength(s.order, k);
    case RemoveOp(k) => WithoutLength(s.order, k);
    case ClearOp =>
    case CleanOp(now) => PurgeSize(s, s.order, now);
  }

  /**
   Least-recently-used, as a guarantee over whole runs: an entry survives until its
   expiry as long as fewer than `max` other keys are read or written meanwhile.
   */
  lemma {:induction false} RecentlyUsedSurvives<V>(s: Store<V>, max: nat, ops: seq<Op<V>>,
                                                   k: string, v: V, horizon: int, others: set<string>)
    requires max > 0 && |s.order| <= max
    requires Safe(s, k, v, horizon, others) && k !in others && |others| < max
    requires forall i :: 0 <= i < |ops| ==> Harmless(ops[i], k, horizon, others)
    ensures Answer(Run(s, max, ops), k, horizon) == Some(v)
    decreases |ops|
  {
    if ops != [] {
      var op := ops[0];
      assert Harmless(op, k, horizon, others);
      match op {
        case GetOp(j, now) => TouchKeepsSafe(s, j, now, k, v, horizon, others);
        case PutOp(j, w, e, now) => InsertKeepsSafe(s, max, j, w, e, now, k, v, horizon, others);
        case HasOp(j, now) => if j != k { DeleteKeepsSafe(s, j, k, v, horizon, others); }
        case RemoveOp(j) => DeleteKeepsSafe(s, j, k, v, horizon, others);
        case CleanOp(now) => PurgeKeepsSafe(s, s.order, now, k, v, horizon, others);
        case ClearOp =>
      }
      ApplySize(s, max, op);
      RecentlyUsedSurvives(Apply(s, max, op), max, ops[1..], k, v, horizon, others);
    }
  }
}
