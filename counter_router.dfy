/**
 * Routing of one record's numbers into the user (tenant) or bucket
 * (container) counter cache, and the effect of one refresh cycle over the
 * records of the "usage" table, as functions on the pair of caches.
 *
 * A cache is a map from the record key to its two gauges; `None` is a cache
 * pointer that is null (before start, after stop).
 */
module CounterRouter {
  import opened Wrappers
  import opened UsageWire
  import opened UsageTable

  /** The literal, case-sensitive prefix of tenant-scoped keys. */
  const USER_PREFIX: string := "user:"

  type CounterMap = map<string, Counters>

  /** The two counters of a counter set: l_rgw_usage_used_bytes and l_rgw_usage_num_objects. */
  datatype CounterField = UsedBytes | NumObjects

  datatype Caches = Caches(user: Option<CounterMap>, bucket: Option<CounterMap>)

  // ---- classification ----

  /** `key.rfind("user:", 0) == 0`: the key starts with the prefix at position 0. */
  predicate IsUserKey(key: string)
  {
    |key| >= |USER_PREFIX| && key[..|USER_PREFIX|] == USER_PREFIX
  }

  /** A key is a user key exactly when it is the prefix followed by some identifier. */
  lemma UserKeyIff(key: string)
    ensures IsUserKey(key) <==> exists id :: key == USER_PREFIX + id
  {
    if IsUserKey(key) {
      assert key == USER_PREFIX + key[|USER_PREFIX|..];
    }
    forall id | key == USER_PREFIX + id
      ensures IsUserKey(key)
    {
      assert key[..|USER_PREFIX|] == USER_PREFIX;
    }
  }

  /** The empty key, keys with the prefix further in, and other letter cases are all bucket keys. */
  lemma BucketByDefault(id: string)
    ensures !IsUserKey("")
    ensures !IsUserKey("bucket:" + USER_PREFIX + id)
    ensures !IsUserKey("User:" + id)
    ensures IsUserKey(USER_PREFIX + id)
  {
    assert ("bucket:" + USER_PREFIX + id)[0] == 'b';
    assert ("User:" + id)[0] == 'U';
    assert (USER_PREFIX + id)[..|USER_PREFIX|] == USER_PREFIX;
  }

  /** The cache a key is routed to. */
  function CacheFor(c: Caches, key: string): Option<CounterMap>
  {
    if IsUserKey(key) then c.user else c.bucket
  }

  /** The cache a key is not routed to. */
  function OtherCache(c: Caches, key: string): Option<CounterMap>
  {
    if IsUserKey(key) then c.bucket else c.user
  }

  /** The counters a (possibly null) cache holds for `key`, if any. */
  function Entry(cache: Option<CounterMap>, key: string): Option<Counters>
  {
    if cache.Some? && key in cache.value then Some(cache.value[key]) else None
  }

  function FieldOf(v: Counters, f: CounterField): u64
  {
    match f
    case UsedBytes => v.usedBytes
    case NumObjects => v.numObjects
  }

  // ---- one update ----

  /**
   * `set_counter(key, field, value)` on one cache: the counter set for `key`
   * is created with zeroed counters when absent, then one field is set.
   */
  function SetCounter(m: CounterMap, key: string, f: CounterField, value: u64): (r: CounterMap)
    ensures key in r && FieldOf(r[key], f) == value
    ensures forall g :: g != f ==> FieldOf(r[key], g) == (if key in m then FieldOf(m[key], g) else 0)
    ensures r - {key} == m - {key}
  {
    var prev := if key in m then m[key] else Counters(0, 0);
    m[key := match f
             case UsedBytes => prev.(usedBytes := value)
             case NumObjects => prev.(numObjects := value)]
  }

  /** Setting both fields overwrites the key's counter set; nothing is accumulated. */
  lemma SetBothOverwrites(m: CounterMap, key: string, bytes: u64, objs: u64)
    ensures SetCounter(SetCounter(m, key, UsedBytes, bytes), key, NumObjects, objs)
         == m[key := Counters(bytes, objs)]
  {
    var r := SetCounter(SetCounter(m, key, UsedBytes, bytes), key, NumObjects, objs);
    assert FieldOf(r[key], UsedBytes) == bytes && FieldOf(r[key], NumObjects) == objs;
    assert r[key] == Counters(bytes, objs);
  }

  /** `update_counter`: choose the cache by the key's prefix; if it exists, set both counters. */
  function Route(c: Caches, key: string, bytes: u64, objs: u64): (r: Caches)
    ensures CacheFor(r, key).Some? == CacheFor(c, key).Some?
    ensures CacheFor(c, key).None? ==> r == c
    ensures CacheFor(c, key).Some? ==> Entry(CacheFor(r, key), key) == Some(Counters(bytes, objs))
    ensures CacheFor(c, key).Some? ==> CacheFor(r, key).value - {key} == CacheFor(c, key).value - {key}
    ensures OtherCache(r, key) == OtherCache(c, key)
  {
    var cache := CacheFor(c, key);
    if cache.None? then c
    else
      var m := SetCounter(SetCounter(cache.value, key, UsedBytes, bytes), key, NumObjects, objs);
      SetBothOverwrites(cache.value, key, bytes, objs);
      if IsUserKey(key) then c.(user := Some(m)) else c.(bucket := Some(m))
  }

  /** A second update of the same key replaces the first: last write wins. */
  lemma RouteLastWriteWins(c: Caches, key: string, b1: u64, o1: u64, b2: u64, o2: u64)
    ensures Route(Route(c, key, b1, o1), key, b2, o2) == Route(c, key, b2, o2)
  {
    var cache := CacheFor(c, key);
    if cache.Some? {
      SetBothOverwrites(cache.value, key, b1, o1);
      SetBothOverwrites(cache.value[key := Counters(b1, o1)], key, b2, o2);
      SetBothOverwrites(cache.value, key, b2, o2);
      assert cache.value[key := Counters(b1, o1)][key := Counters(b2, o2)] == cache.value[key := Counters(b2, o2)];
    }
  }

  // ---- one refresh cycle ----

  /** One record seen by the cursor: a well-sized value is decoded and routed, any other is skipped. */
  function ApplyRecord(order: ByteOrder, c: Caches, rec: Record): Caches
  {
    match DecodeUsage(order, rec.value)
    case None => c
    case Some(v) => Route(c, rec.key, v.usedBytes, v.numObjects)
  }

  /** The caches after the cursor has visited `rs` in order, starting from `c`. */
  function RefreshCycle(order: ByteOrder, c: Caches, rs: seq<Record>): (r: Caches)
    ensures r.user.Some? == c.user.Some? && r.bucket.Some? == c.bucket.Some?
    decreases |rs|
  {
    if rs == [] then c
    else ApplyRecord(order, RefreshCycle(order, c, rs[..|rs| - 1]), rs[|rs| - 1])
  }

  // ---- a reference definition: what a cycle observes, independent of the caches ----

  /** For every key with a well-sized record, the counters of its last such record. */
  function Observed(order: ByteOrder, rs: seq<Record>): CounterMap
    decreases |rs|
  {
    if rs == [] then map[]
    else
      var o := Observed(order, rs[..|rs| - 1]);
      var last := rs[|rs| - 1];
      match DecodeUsage(order, last.value)
      case None => o
      case Some(v) => o[last.key := v]
  }

  function UserPart(m: CounterMap): CounterMap
  {
    map k | k in m && IsUserKey(k) :: m[k]
  }

  function BucketPart(m: CounterMap): CounterMap
  {
    map k | k in m && !IsUserKey(k) :: m[k]
  }

  function Merge(cache: Option<CounterMap>, m: CounterMap): Option<CounterMap>
  {
    match cache
    case None => None
    case Some(x) => Some(x + m)
  }

  /** The caches `c` with observed counters written over them, each key in its own namespace. */
  function Overlay(c: Caches, m: CounterMap): Caches
  {
    Caches(Merge(c.user, UserPart(m)), Merge(c.bucket, BucketPart(m)))
  }

  lemma {:induction false} ObservedKeys(order: ByteOrder, rs: seq<Record>, k: string)
    ensures k in Observed(order, rs) <==>
            exists i :: 0 <= i < |rs| && rs[i].key == k && |rs[i].value| == RECORD_SIZE
    decreases |rs|
  {
    if rs != [] {
      var p := rs[..|rs| - 1];
      ObservedKeys(order, p, k);
      if k in Observed(order, p) {
        var i :| 0 <= i < |p| && p[i].key == k && |p[i].value| == RECORD_SIZE;
        assert rs[i] == p[i];
      }
      if exists i :: 0 <= i < |rs| && rs[i].key == k && |rs[i].value| == RECORD_SIZE {
        var i :| 0 <= i < |rs| && rs[i].key == k && |rs[i].value| == RECORD_SIZE;
        if i < |p| {
          assert p[i] == rs[i];
        }
      }
    }
  }

  /** With distinct keys, each well-sized record is observed with exactly its own counters. */
  lemma {:induction false} ObservedAt(order: ByteOrder, rs: seq<Record>, i: nat)
    requires DistinctKeys(rs) && i < |rs| && |rs[i].value| == RECORD_SIZE
    ensures Entry(Some(Observed(order, rs)), rs[i].key) == DecodeUsage(order, rs[i].value)
    decreases |rs|
  {
    var p := rs[..|rs| - 1];
    if i < |rs| - 1 {
      assert p[i] == rs[i];
      ObservedAt(order, p, i);
      assert rs[|rs| - 1].key != rs[i].key;
    }
  }

  lemma PartsOfUpdate(m: CounterMap, key: string, v: Counters)
    ensures IsUserKey(key) ==> UserPart(m[key := v]) == UserPart(m)[key := v]
    ensures IsUserKey(key) ==> BucketPart(m[key := v]) == BucketPart(m)
    ensures !IsUserKey(key) ==> BucketPart(m[key := v]) == BucketPart(m)[key := v]
    ensures !IsUserKey(key) ==> UserPart(m[key := v]) == UserPart(m)
  {
  }

  /** Routing one observed record over an overlay is the overlay of the updated observation. */
  lemma RouteOverlay(c: Caches, o: CounterMap, key: string, v: Counters)
    ensures Route(Overlay(c, o), key, v.usedBytes, v.numObjects) == Overlay(c, o[key := v])
  {
    var after := Route(Overlay(c, o), key, v.usedBytes, v.numObjects);
    PartsOfUpdate(o, key, v);
    if IsUserKey(key) {
      match c.user
      case None =>
      case Some(x) =>
        assert after.user.value == (x + UserPart(o))[key := v];
        assert (x + UserPart(o))[key := v] == x + UserPart(o)[key := v];
    } else {
      match c.bucket
      case None =>
      case Some(x) =>
        assert after.bucket.value == (x + BucketPart(o))[key := v];
        assert (x + BucketPart(o))[key := v] == x + BucketPart(o)[key := v];
    }
  }

  lemma OverlayEmpty(c: Caches)
    ensures Overlay(c, map[]) == c
  {
    assert UserPart(map[]) == map[] && BucketPart(map[]) == map[];
    match c.user { case None => case Some(x) => assert x + map[] == x; }
    match c.bucket { case None => case Some(x) => assert x + map[] == x; }
  }

  /** A refresh cycle writes what it observes over the caches: the cursor walk agrees with the reference. */
  lemma {:induction false} RefreshIsOverlay(order: ByteOrder, c: Caches, rs: seq<Record>)
    ensures RefreshCycle(order, c, rs) == Overlay(c, Observed(order, rs))
    decreases |rs|
  {
    if rs == [] {
      OverlayEmpty(c);
    } else {
      var p := rs[..|rs| - 1];
      var last := rs[|rs| - 1];
      RefreshIsOverlay(order, c, p);
      match DecodeUsage(order, last.value)
      case None =>
      case Some(v) => RouteOverlay(c, Observed(order, p), last.key, v);
    }
  }

  lemma OverlayIdempotent(c: Caches, m: CounterMap)
    ensures Overlay(Overlay(c, m), m) == Overlay(c, m)
  {
    match c.user { case None => case Some(x) => assert x + UserPart(m) + UserPart(m) == x + UserPart(m); }
    match c.bucket { case None => case Some(x) => assert x + BucketPart(m) + BucketPart(m) == x + BucketPart(m); }
  }

  // ---- properties of a refresh cycle ----

  /** Two consecutive cycles over an unchanged table leave the caches as one cycle does. */
  lemma RefreshTwice(order: ByteOrder, c: Caches, rs: seq<Record>)
    ensures RefreshCycle(order, RefreshCycle(order, c, rs), rs) == RefreshCycle(order, c, rs)
  {
    RefreshIsOverlay(order, c, rs);
    RefreshIsOverlay(order, RefreshCycle(order, c, rs), rs);
    OverlayIdempotent(c, Observed(order, rs));
  }

  /**
   * After a cycle over a table with distinct keys, every well-sized record's
   * counters are in the cache its key is routed to, whatever the cache held before.
   */
  lemma {:induction false} RefreshStoresRecord(order: ByteOrder, c: Caches, rs: seq<Record>, i: nat)
    requires DistinctKeys(rs) && i < |rs| && |rs[i].value| == RECORD_SIZE
    requires CacheFor(c, rs[i].key).Some?
    ensures Entry(CacheFor(RefreshCycle(order, c, rs), rs[i].key), rs[i].key) == DecodeUsage(order, rs[i].value)
  {
    RefreshIsOverlay(order, c, rs);
    ObservedAt(order, rs, i);
  }

  /** The same for a table as its cursor yields it, in strictly ascending key order. */
  lemma RefreshStoresTableRecord(order: ByteOrder, c: Caches, rs: seq<Record>, i: nat)
    requires InKeyOrder(rs) && i < |rs| && |rs[i].value| == RECORD_SIZE
    requires CacheFor(c, rs[i].key).Some?
    ensures Entry(CacheFor(RefreshCycle(order, c, rs), rs[i].key), rs[i].key) == DecodeUsage(order, rs[i].value)
  {
    InKeyOrderDistinct(rs);
    RefreshStoresRecord(order, c, rs, i);
  }

  /** A key with no well-sized record keeps its entries in both caches: malformed records are skipped. */
  lemma {:induction false} RefreshSkipsMalformed(order: ByteOrder, c: Caches, rs: seq<Record>, k: string)
    requires forall i :: 0 <= i < |rs| && rs[i].key == k ==> |rs[i].value| != RECORD_SIZE
    ensures Entry(RefreshCycle(order, c, rs).user, k) == Entry(c.user, k)
    ensures Entry(RefreshCycle(order, c, rs).bucket, k) == Entry(c.bucket, k)
  {
    RefreshIsOverlay(order, c, rs);
    ObservedKeys(order, rs, k);
  }

  /** A cycle never writes a key into the cache of the other namespace. */
  lemma {:induction false} RefreshRoutesByPrefix(order: ByteOrder, c: Caches, rs: seq<Record>, k: string)
    ensures Entry(OtherCache(RefreshCycle(order, c, rs), k), k) == Entry(OtherCache(c, k), k)
  {
    RefreshIsOverlay(order, c, rs);
  }

  /** With both caches null, a cycle changes nothing. */
  lemma {:induction false} RefreshWithoutCaches(order: ByteOrder, rs: seq<Record>)
    ensures RefreshCycle(order, Caches(None, None), rs) == Caches(None, None)
  {
    RefreshIsOverlay(order, Caches(None, None), rs);
  }
  lemma {:induction false} RefreshPair(order: ByteOrder, c: Caches, a: Record, b: Record)
    ensures RefreshCycle(order, c, [a, b]) == ApplyRecord(order, ApplyRecord(order, c, a), b)
  {
    assert [a, b][..1] == [a];
    assert [a][..0] == [];
    assert RefreshCycle(order, c, [a]) == ApplyRecord(order, RefreshCycle(order, c, []), a);
  }

  /**
   * A table holding a bucket key and a user key (as "bkt1" = (2000, 10) and
   * "user:alice" = (1000, 5)): one cycle over empty caches puts each key in its
   * own cache, a second cycle changes nothing, and a cycle after the user's
   * record changed (to (1500, 6)) overwrites the user's counters.
   */
  lemma TwoKeyCycles(order: ByteOrder, bkt: string, user: string, vb: Counters, vu: Counters, vu2: Counters)
    requires !IsUserKey(bkt) && IsUserKey(user)
    ensures var b := Record(bkt, EncodeUsage(order, vb));
            var u := Record(user, EncodeUsage(order, vu));
            var u2 := Record(user, EncodeUsage(order, vu2));
            var first := RefreshCycle(order, Caches(Some(map[]), Some(map[])), [b, u]);
            && first == Caches(Some(map[user := vu]), Some(map[bkt := vb]))
            && RefreshCycle(order, first, [b, u]) == first
            && RefreshCycle(order, first, [b, u2]) == Caches(Some(map[user := vu2]), Some(map[bkt := vb]))
  {
    var b := Record(bkt, EncodeUsage(order, vb));
    var u := Record(user, EncodeUsage(order, vu));
    var u2 := Record(user, EncodeUsage(order, vu2));
    var empty := Caches(Some(map[]), Some(map[]));
    DecodeEncode(order, vb);
    DecodeEncode(order, vu);
    DecodeEncode(order, vu2);
    RefreshPair(order, empty, b, u);
    var first := RefreshCycle(order, empty, [b, u]);
    var mid := ApplyRecord(order, empty, b);
    assert mid.bucket.value == map[bkt := vb];
    assert first.user.value == map[user := vu];
    RefreshTwice(order, empty, [b, u]);
    RefreshPair(order, first, b, u2);
    var second := ApplyRecord(order, first, b);
    assert second.bucket.value == map[bkt := vb];
    assert ApplyRecord(order, second, u2).user.value == map[user := vu2];
  }
}
