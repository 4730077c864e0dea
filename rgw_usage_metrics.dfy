/**
 * The usage-metrics synchroniser: one object that owns the LMDB environment
 * holding the "usage" table and the two counter caches, opens them in Start,
 * copies the table into the caches on every refresh, and releases everything
 * in Stop and on destruction.
 *
 * LMDB calls are not modelled: Start receives the return codes its calls
 * produce, and a refresh receives the outcome of its read transaction.
 */
module Rgw {
  import opened Wrappers
  import opened UsageWire
  import opened UsageTable
  import opened CounterRouter

  /** The refresh interval, in seconds, before Start reads the configured one. */
  const DEFAULT_INTERVAL: u64 := 60

  /** The configuration Start reads: rgw_usage_metrics_refresh_interval and rgw_usage_metrics_db_path. */
  datatype Config = Config(refreshInterval: u64, dbPath: string)

  /** An LMDB environment handle, for the store at `path`. */
  datatype Env = Env(path: string)

  /**
   * The return codes of the store calls Start makes, in call order:
   * mdb_env_create, mdb_env_set_maxdbs, mdb_env_open, mdb_txn_begin,
   * mdb_dbi_open (with the table handle it yields) and mdb_txn_commit.
   * Zero is success.
   */
  datatype OpenResults = OpenResults(
    envCreate: int, setMaxDbs: int, envOpen: int,
    txnBegin: int, dbiOpen: int, dbiHandle: nat, txnCommit: int)

  /**
   * The outcome of a read-only transaction in a refresh: it cannot begin, its
   * cursor cannot be opened, or the cursor yields these records before its
   * first non-zero return.
   */
  datatype ReadTxn =
    | BeginFailed(code: int)
    | CursorOpenFailed(code: int)
    | CursorRecords(records: seq<Record>)

  /** The first non-zero code, or zero when every call succeeded. */
  function FirstError(codes: seq<int>): (r: int)
    ensures r == 0 <==> forall i :: 0 <= i < |codes| ==> codes[i] == 0
    ensures r != 0 ==> exists i :: 0 <= i < |codes| && codes[i] == r && forall j :: 0 <= j < i ==> codes[j] == 0
  {
    if codes == [] then 0
    else if codes[0] != 0 then codes[0]
    else
      var r := FirstError(codes[1..]);
      assert forall i :: 1 <= i < |codes| ==> codes[i] == codes[1..][i - 1];
      r
  }

  function OpenCodes(o: OpenResults): seq<int>
  {
    [o.envCreate, o.setMaxDbs, o.envOpen, o.txnBegin, o.dbiOpen, o.txnCommit]
  }

  /** The code of the first store call of Start that fails, or zero. */
  function OpenStatus(o: OpenResults): int
  {
    FirstError(OpenCodes(o))
  }

  /** Start succeeds exactly when every store call succeeds, and fails with the first failing call's code. */
  lemma OpenStatusIff(o: OpenResults)
    ensures OpenStatus(o) == 0 <==>
            o.envCreate == 0 && o.setMaxDbs == 0 && o.envOpen == 0 &&
            o.txnBegin == 0 && o.dbiOpen == 0 && o.txnCommit == 0
    ensures o.envCreate != 0 ==> OpenStatus(o) == o.envCreate
    ensures o.envCreate == 0 && o.setMaxDbs != 0 ==> OpenStatus(o) == o.setMaxDbs
    ensures o.envCreate == 0 && o.setMaxDbs == 0 && o.envOpen != 0 ==> OpenStatus(o) == o.envOpen
    ensures o.envCreate == 0 && o.setMaxDbs == 0 && o.envOpen == 0 && o.txnBegin != 0
            ==> OpenStatus(o) == o.txnBegin
    ensures o.envCreate == 0 && o.setMaxDbs == 0 && o.envOpen == 0 && o.txnBegin == 0 && o.dbiOpen != 0
            ==> OpenStatus(o) == o.dbiOpen
    ensures DbiAssigned(o) && o.txnCommit != 0 ==> OpenStatus(o) == o.txnCommit
  {
    var cs := OpenCodes(o);
    assert cs[0] == o.envCreate && cs[1] == o.setMaxDbs && cs[2] == o.envOpen;
    assert cs[3] == o.txnBegin && cs[4] == o.dbiOpen && cs[5] == o.txnCommit;
  }

  /** mdb_dbi_open ran and succeeded, so Start stored the table handle. */
  predicate DbiAssigned(o: OpenResults)
  {
    o.envCreate == 0 && o.setMaxDbs == 0 && o.envOpen == 0 && o.txnBegin == 0 && o.dbiOpen == 0
  }

  class UsageMetrics {
    /** The byte order in which the host reads the stored 64-bit words. */
    const hostOrder: ByteOrder

    var env: Option<Env>
    var dbi: nat
    /** `thr.joinable()`: the background refresh thread has been started and not joined. */
    var threadRunning: bool
    var stopFlag: bool
    var userCache: Option<CounterMap>
    var bucketCache: Option<CounterMap>
    var interval: u64

    /**
     * The states Start and Stop leave behind: either everything is released
     * and no thread runs, or the store is open, both caches exist and the
     * thread runs with the stop flag clear.
     */
    ghost predicate Valid()
      reads this
    {
      && (env.Some? <==> threadRunning)
      && (userCache.Some? <==> threadRunning)
      && (bucketCache.Some? <==> threadRunning)
      && (threadRunning ==> !stopFlag)
    }

    function CacheState(): Caches
      reads this
    {
      Caches(userCache, bucketCache)
    }

    constructor (hostOrder: ByteOrder)
      ensures Valid()
      ensures this.hostOrder == hostOrder
      ensures env.None? && dbi == 0 && !threadRunning && !stopFlag
      ensures userCache.None? && bucketCache.None?
      ensures interval == DEFAULT_INTERVAL
    {
      this.hostOrder := hostOrder;
      env := None;
      dbi := 0;
      threadRunning := false;
      stopFlag := false;
      userCache := None;
      bucketCache := None;
      interval := DEFAULT_INTERVAL;
    }

    /**
     * Opens the store and allocates both caches. On failure the environment is
     * released, the negated code of the failing call is returned, and no cache
     * or thread exists. The configured interval is read in either case.
     */
    method Start(config: Config, open: OpenResults) returns (r: int)
      requires Valid() && !threadRunning
      modifies this
      ensures Valid()
      ensures r == -OpenStatus(open)
      ensures interval == config.refreshInterval
      ensures dbi == if DbiAssigned(open) then open.dbiHandle else old(dbi)
      ensures r == 0 ==> env == Some(Env(config.dbPath)) && threadRunning && !stopFlag
      ensures r == 0 ==> userCache == Some(map[]) && bucketCache == Some(map[])
      ensures r != 0 ==> env.None? && !threadRunning && stopFlag == old(stopFlag)
      ensures r != 0 ==> userCache.None? && bucketCache.None?
    {
      OpenStatusIff(open);
      interval := config.refreshInterval;
      var rc := open.envCreate;
      if rc == 0 {
        env := Some(Env(config.dbPath));
        rc := open.setMaxDbs;
      }
      if rc == 0 {
        rc := open.envOpen;
      }
      if rc != 0 {
        env := None;
        return -rc;
      }
      rc := open.txnBegin;
      if rc == 0 {
        rc := open.dbiOpen;
        if rc == 0 {
          dbi := open.dbiHandle;
          rc := open.txnCommit;
        }
      }
      if rc != 0 {
        env := None;
        assert OpenCodes(open)[..3] == [0, 0, 0];
        assert OpenStatus(open) == FirstError(OpenCodes(open)[3..]);
        return -rc;
      }
      userCache := Some(map[]);
      bucketCache := Some(map[]);
      stopFlag := false;
      threadRunning := true;
      r := 0;
    }

    /**
     * Raises the stop flag, joins the thread if it runs, and releases the
     * store and both caches. Every call, including one before Start, ends in
     * the same released state, so calling it again changes nothing.
     */
    method Stop()
      modifies this
      ensures Valid()
      ensures stopFlag && !threadRunning
      ensures env.None? && userCache.None? && bucketCache.None?
      ensures dbi == old(dbi) && interval == old(interval)
    {
      stopFlag := true;
      if threadRunning {
        // the thread sees the flag after its current cycle and returns
        threadRunning := false;
      }
      if env.Some? {
        env := None;
      }
      userCache := None;
      bucketCache := None;
    }

    /** The destructor: always stops. */
    method Destroy()
      modifies this
      ensures Valid()
      ensures stopFlag && !threadRunning
      ensures env.None? && userCache.None? && bucketCache.None?
      ensures dbi == old(dbi) && interval == old(interval)
    {
      Stop();
    }

    /** Writes both counters of `key` into the cache its prefix selects, if that cache exists. */
    method UpdateCounter(key: string, bytes: u64, objs: u64)
      requires Valid()
      modifies this`userCache, this`bucketCache
      ensures Valid()
      ensures CacheState() == Route(old(CacheState()), key, bytes, objs)
    {
      var toUser := IsUserKey(key);
      var cache := if toUser then userCache else bucketCache;
      if cache.Some? {
        var m := SetCounter(cache.value, key, UsedBytes, bytes);
        m := SetCounter(m, key, NumObjects, objs);
        if toUser {
          userCache := Some(m);
        } else {
          bucketCache := Some(m);
        }
      }
    }

    /**
     * One refresh cycle: without an open store, or when the read transaction
     * or its cursor cannot be opened, the caches stay as they are; otherwise
     * every record the cursor yields is routed if its value is exactly two
     * words long and skipped if not.
     */
    method LoadFromDb(txn: ReadTxn)
      requires Valid()
      modifies this`userCache, this`bucketCache
      ensures Valid()
      ensures CacheState() ==
              if env.Some? && txn.CursorRecords?
              then RefreshCycle(hostOrder, old(CacheState()), txn.records)
              else old(CacheState())
    {
      if env.None? {
        return;
      }
      if !txn.CursorRecords? {
        return;
      }
      var rs := txn.records;
      var i := 0;
      while i < |rs|
        invariant 0 <= i <= |rs|
        invariant CacheState() == RefreshCycle(hostOrder, old(CacheState()), rs[..i])
        invariant Valid()
      {
        var rec := rs[i];
        if |rec.value| == RECORD_SIZE {
          var v := DecodeUsage(hostOrder, rec.value).value;
          UpdateCounter(rec.key, v.usedBytes, v.numObjects);
        }
        assert rs[..i + 1][..i] == rs[..i];
        i := i + 1;
      }
      assert rs[..i] == rs;
    }
  }
  /** Before start, stop and refresh do nothing; a failed start leaves nothing allocated. */
  method LifecycleScenario(order: ByteOrder, openError: int)
    requires openError != 0
  {
    var m := new UsageMetrics(order);
    m.LoadFromDb(CursorRecords([Record("user:bob", EncodeUsage(order, Counters(1, 1)))]));
    assert m.CacheState() == Caches(None, None);
    m.Stop();
    m.Stop();
    assert m.env.None? && m.userCache.None? && m.bucketCache.None? && m.stopFlag;

    OpenStatusIff(OpenResults(0, 0, openError, 0, 0, 7, 0));
    var r := m.Start(Config(30, "/var/lib/ceph/usage"), OpenResults(0, 0, openError, 0, 0, 7, 0));
    assert r == -openError && m.env.None? && !m.threadRunning && m.userCache.None?;
    m.Stop();

    OpenStatusIff(OpenResults(0, 0, 0, 0, 0, 7, 0));
    r := m.Start(Config(30, "/var/lib/ceph/usage"), OpenResults(0, 0, 0, 0, 0, 7, 0));
    assert r == 0 && m.dbi == 7 && m.interval == 30 && m.threadRunning;
    m.Destroy();
    assert m.env.None? && m.userCache.None? && m.bucketCache.None? && !m.threadRunning;
  }

  /**
   * After a successful start, each cycle copies the table ("bkt1" and
   * "user:alice" with counters `vb` and `vu`), a repeated cycle changes
   * nothing, and a later value `vu2` overwrites the earlier one.
   */
  method RefreshScenario(order: ByteOrder, vb: Counters, vu: Counters, vu2: Counters)
  {
    var m := new UsageMetrics(order);
    OpenStatusIff(OpenResults(0, 0, 0, 0, 0, 1, 0));
    var r := m.Start(Config(60, "/var/lib/ceph/usage"), OpenResults(0, 0, 0, 0, 0, 1, 0));
    var bkt1 := Record("bkt1", EncodeUsage(order, vb));
    var alice := Record("user:alice", EncodeUsage(order, vu));
    var alice2 := Record("user:alice", EncodeUsage(order, vu2));
    assert !IsUserKey("bkt1") && IsUserKey("user:alice");
    TwoKeyCycles(order, "bkt1", "user:alice", vb, vu, vu2);

    m.LoadFromDb(CursorRecords([bkt1, alice]));
    assert m.userCache == Some(map["user:alice" := vu]);
    assert m.bucketCache == Some(map["bkt1" := vb]);
    m.LoadFromDb(CursorRecords([bkt1, alice]));
    assert m.userCache == Some(map["user:alice" := vu]);
    m.LoadFromDb(CursorRecords([bkt1, alice2]));
    assert m.userCache == Some(map["user:alice" := vu2]);
    m.Stop();
  }
}
