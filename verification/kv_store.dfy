/**
 * The size-accounted, lazily expiring key/value store (`KvStore` in
 * backend/src/utils/kv_store.rs) with its on-disk snapshot.
 *
 * Time is an explicit `now` in epoch seconds. The bincode encodings are abstract: the store
 * is given, per key and per value, either the length of the encoding or the encoder's error.
 * The snapshot file is the field `disk`; whatever makes a disk operation fail is a `fault`
 * argument.
 */
module Store {
  import opened Wrappers

  /** The hard cap on `currentSizeBytes`: 1 GiB. */
  const MAX_MEMORY_BYTES: nat := 1024 * 1024 * 1024
  /** Ten minutes, in seconds. */
  const PERSIST_INTERVAL_SECS: nat := 60 * 10
  /** The time to live of every entry: 24 hours, in seconds. */
  const EXPIRY_SECS: nat := 60 * 60 * 24
  /** Bytes charged per entry on top of the encoded key and value. */
  const ENTRY_OVERHEAD: nat := 64

  datatype Entry<V> = Entry(value: V, expiresAt: nat, sizeBytes: nat)

  /** What `persist_to_disk` writes: the whole map, expired entries included. */
  datatype Snapshot<K, V> = Snapshot(entries: map<K, Entry<V>>, createdAt: nat)

  datatype StoreError = EstimateFailed(message: string) | CapacityExceeded

  /** The entries a reader may see at time `now`. */
  function Live<K, V>(m: map<K, Entry<V>>, now: nat): (live: map<K, Entry<V>>) {
    map k | k in m && m[k].expiresAt > now :: m[k]
  }

  /** The keys a sweep at time `now` removes. */
  function Expired<K, V>(m: map<K, Entry<V>>, now: nat): (keys: set<K>) {
    set k | k in m && m[k].expiresAt <= now
  }

  /** `Instant::elapsed`, which never goes below zero. */
  function Elapsed(since: nat, now: nat): nat {
    if now >= since then now - since else 0
  }

  ghost function PickKey<K, V>(m: map<K, Entry<V>>): (k: K)
    requires m != map[]
    ensures k in m
  {
    var k :| k in m; k
  }

  /** The sum of `sizeBytes` over every entry of the map. */
  ghost function TotalSize<K, V>(m: map<K, Entry<V>>): nat
    decreases |m|
  {
    if m == map[] then 0
    else
      var k := PickKey(m);
      assert |m - {k}| < |m| by {
        assert (m - {k}).Keys == m.Keys - {k};
      }
      m[k].sizeBytes + TotalSize(m - {k})
  }

  /** Any one entry's size can be split off the total. */
  lemma {:induction false} TotalSizeRemove<K, V>(m: map<K, Entry<V>>, k: K)
    requires k in m
    ensures TotalSize(m) == m[k].sizeBytes + TotalSize(m - {k})
    decreases |m|
  {
    var j := PickKey(m);
    if j != k {
      assert (m - {j}).Keys == m.Keys - {j};
      TotalSizeRemove(m - {j}, k);
      assert (m - {k}).Keys == m.Keys - {k};
      TotalSizeRemove(m - {k}, j);
      assert (m - {j}) - {k} == (m - {k}) - {j};
    }
  }

  /** Inserting or overwriting one key replaces that key's share of the total. */
  lemma TotalSizeUpdate<K, V>(m: map<K, Entry<V>>, k: K, e: Entry<V>)
    ensures TotalSize(m[k := e]) == TotalSize(m - {k}) + e.sizeBytes
    ensures k in m ==> TotalSize(m[k := e]) == TotalSize(m) - m[k].sizeBytes + e.sizeBytes
  {
    TotalSizeRemove(m[k := e], k);
    assert m[k := e] - {k} == m - {k};
    if k in m {
      TotalSizeRemove(m, k);
    }
  }

  /** Dropping entries never makes the total grow. */
  lemma {:induction false} TotalSizeSubmap<K, V>(sub: map<K, Entry<V>>, m: map<K, Entry<V>>)
    requires forall k :: k in sub ==> k in m && sub[k] == m[k]
    ensures TotalSize(sub) <= TotalSize(m)
    decreases |m|
  {
    if m != map[] {
      var j := PickKey(m);
      assert (m - {j}).Keys == m.Keys - {j};
      if j in sub {
        TotalSizeRemove(sub, j);
        TotalSizeSubmap(sub - {j}, m - {j});
      } else {
        TotalSizeSubmap(sub, m - {j});
      }
    } else {
      assert sub == map[];
    }
  }

  /** What survives a load or a sweep never weighs more than the map it came from. */
  lemma LiveSizeAtMost<K, V>(m: map<K, Entry<V>>, now: nat)
    ensures TotalSize(Live(m, now)) <= TotalSize(m)
  {
    TotalSizeSubmap(Live(m, now), m);
  }

  /** A sweep splits the map into what stays and what it counts as removed. */
  lemma LiveExpiredPartition<K, V>(m: map<K, Entry<V>>, now: nat)
    ensures Live(m, now).Keys == m.Keys - Expired(m, now)
    ensures |Live(m, now)| + |Expired(m, now)| == |m|
  {
    var live := Live(m, now).Keys;
    var dead := Expired(m, now);
    assert live == m.Keys - dead;
    assert live !! dead && live + dead == m.Keys;
    assert |live + dead| == |live| + |dead|;
  }

  /** What a sweep keeps is the map without the expired keys. */
  lemma LiveIsUnexpired<K, V>(m: map<K, Entry<V>>, now: nat)
    ensures Live(m, now) == m - Expired(m, now)
  {
    assert Live(m, now).Keys == (m - Expired(m, now)).Keys;
  }

  /** Taking one more key of `m` back in adds its entry exactly when it is live. */
  lemma LiveAddBack<K, V>(m: map<K, Entry<V>>, todo: set<K>, k: K, now: nat)
    requires k in todo && k in m
    ensures k !in Live(m - todo, now)
    ensures Live(m - (todo - {k}), now) ==
      if m[k].expiresAt > now then Live(m - todo, now)[k := m[k]] else Live(m - todo, now)
  {
    if m[k].expiresAt > now {
      assert Live(m - (todo - {k}), now).Keys == Live(m - todo, now).Keys + {k};
    } else {
      assert Live(m - (todo - {k}), now).Keys == Live(m - todo, now).Keys;
    }
  }

  /** Entries live at a later time were live at every earlier one: sweeping first changes nothing. */
  lemma LiveLater<K, V>(m: map<K, Entry<V>>, t0: nat, t1: nat)
    requires t0 <= t1
    ensures Live(Live(m, t0), t1) == Live(m, t1)
  {
  }

  class KvStore<K(==), V> {
    /** Length of the bincode encoding of a key, or the encoder's error. */
    const keyBytes: K -> Result<nat, string>
    /** Length of the bincode encoding of a value, or the encoder's error. */
    const valueBytes: V -> Result<nat, string>
    const filePath: string

    var entries: map<K, Entry<V>>
    var currentSizeBytes: nat
    var lastPersist: nat
    /** The snapshot file at `filePath`; `None` when there is no such file. */
    var disk: Option<Snapshot<K, V>>

    /** The running counter is the total size of the stored entries, expired ones included. */
    ghost predicate Valid()
      reads this
    {
      currentSizeBytes == TotalSize(entries)
    }

    predicate WithinCap()
      reads this
    {
      currentSizeBytes <= MAX_MEMORY_BYTES
    }

    constructor (filePath: string, keyBytes: K -> Result<nat, string>,
                 valueBytes: V -> Result<nat, string>, disk: Option<Snapshot<K, V>>, now: nat)
      ensures Valid() && WithinCap()
      ensures entries == map[] && currentSizeBytes == 0 && lastPersist == now
      ensures this.disk == disk && this.filePath == filePath
      ensures this.keyBytes == keyBytes && this.valueBytes == valueBytes
    {
      this.filePath := filePath;
      this.keyBytes := keyBytes;
      this.valueBytes := valueBytes;
      this.disk := disk;
      entries := map[];
      currentSizeBytes := 0;
      lastPersist := now;
    }

    /** The bytes charged for an entry; the key's encoding is tried first. */
    function EstimateSize(key: K, value: V): (r: Result<nat, string>)
      ensures r.Ok? <==> keyBytes(key).Ok? && valueBytes(value).Ok?
      ensures r.Ok? ==> r.value == keyBytes(key).value + valueBytes(value).value + ENTRY_OVERHEAD
      ensures keyBytes(key).Err? ==> r == Err(keyBytes(key).error)
      ensures keyBytes(key).Ok? && valueBytes(value).Err? ==> r == Err(valueBytes(value).error)
    {
      match keyBytes(key)
      case Err(e) => Err(e)
      case Ok(k) =>
        match valueBytes(value)
        case Err(e) => Err(e)
        case Ok(v) => Ok(k + v + ENTRY_OVERHEAD)
    }

    /** The value, while its entry exists and has not expired. */
    function Get(key: K, now: nat): (r: Option<V>)
      reads this
      ensures r.Some? <==> key in Live(entries, now)
      ensures r.Some? ==> r.value == entries[key].value
    {
      if key in entries && entries[key].expiresAt > now then Some(entries[key].value) else None
    }

    /** The same liveness test as `Get`. */
    function ContainsKey(key: K, now: nat): (b: bool)
      reads this
      ensures b <==> Get(key, now).Some?
    {
      if key in entries then entries[key].expiresAt > now else false
    }

    /** Stored entries, expired ones not yet swept included. */
    function Len(): (n: nat)
      reads this
      ensures n == |entries|
      ensures forall now: nat :: |Live(entries, now)| <= n
    {
      forall now: nat ensures |Live(entries, now)| <= |entries| {
        LiveExpiredPartition(entries, now);
      }
      |entries|
    }

    function MemoryUsage(): (n: nat)
      reads this
      requires Valid()
      ensures n == TotalSize(entries)
    {
      currentSizeBytes
    }

    method Set(key: K, value: V, now: nat, persistFault: Option<string>) returns (r: Result<(), StoreError>)
      requires Valid()
      modifies this`entries, this`currentSizeBytes, this`lastPersist, this`disk
      ensures Valid()
      ensures EstimateSize(key, value).Err? ==> r == Err(EstimateFailed(EstimateSize(key, value).error))
      ensures EstimateSize(key, value).Ok? ==>
        var e := Entry(value, now + EXPIRY_SECS, EstimateSize(key, value).value);
        (r.Ok? <==> TotalSize(old(entries)[key := e]) <= MAX_MEMORY_BYTES)
        && (r.Ok? ==> entries == old(entries)[key := e])
        && (r.Err? ==> r == Err(CapacityExceeded))
      ensures r.Err? ==>
        entries == old(entries) && currentSizeBytes == old(currentSizeBytes)
        && lastPersist == old(lastPersist) && disk == old(disk)
      ensures r.Ok? ==> WithinCap() && Get(key, now) == Some(value) && Get(key, now + EXPIRY_SECS) == None
      // the inline best-effort persist
      ensures r.Ok? && Elapsed(old(lastPersist), now) >= PERSIST_INTERVAL_SECS ==>
        lastPersist == now
        && disk == (if persistFault.None? then Some(Snapshot(entries, now)) else old(disk))
      ensures r.Ok? && Elapsed(old(lastPersist), now) < PERSIST_INTERVAL_SECS ==>
        lastPersist == old(lastPersist) && disk == old(disk)
    {
      var estimate := EstimateSize(key, value);
      if estimate.Err? {
        return Err(EstimateFailed(estimate.error));
      }
      var entrySize := estimate.value;
      var oldSize := if key in entries then entries[key].sizeBytes else 0;
      if key in entries {
        TotalSizeRemove(entries, key);
      }
      var newTotalSize := currentSizeBytes - oldSize + entrySize;
      var entry := Entry(value, now + EXPIRY_SECS, entrySize);
      TotalSizeUpdate(entries, key, entry);
      if key !in entries {
        assert entries - {key} == entries;
      }
      if newTotalSize > MAX_MEMORY_BYTES {
        return Err(CapacityExceeded);
      }
      currentSizeBytes := newTotalSize;
      entries := entries[key := entry];
      if Elapsed(lastPersist, now) >= PERSIST_INTERVAL_SECS {
        var persisted := Persist(now, persistFault);
        lastPersist := now;
      }
      r := Ok(());
    }

    /** Removes the entry whether or not it has expired. */
    method Remove(key: K) returns (r: Option<V>)
      requires Valid()
      modifies this`entries, this`currentSizeBytes
      ensures Valid()
      ensures key in old(entries) ==>
        r == Some(old(entries)[key].value) && entries == old(entries) - {key}
        && currentSizeBytes == old(currentSizeBytes) - old(entries)[key].sizeBytes
      ensures key !in old(entries) ==>
        r == None && entries == old(entries) && currentSizeBytes == old(currentSizeBytes)
    {
      if key in entries {
        var entry := entries[key];
        TotalSizeRemove(entries, key);
        entries := entries - {key};
        currentSizeBytes := currentSizeBytes - entry.sizeBytes;
        return Some(entry.value);
      }
      return None;
    }

    /** Removes exactly the entries expired at `now` and returns how many there were. */
    method CleanupExpired(now: nat) returns (count: nat)
      requires Valid()
      modifies this`entries, this`currentSizeBytes
      ensures Valid()
      ensures entries == Live(old(entries), now)
      ensures count == |Expired(old(entries), now)|
      ensures count + |entries| == |old(entries)|
      ensures currentSizeBytes <= old(currentSizeBytes)
    {
      var expiredKeys := Expired(entries, now);
      count := |expiredKeys|;
      var todo := expiredKeys;
      while todo != {}
        invariant todo <= expiredKeys
        invariant Valid()
        invariant entries == old(entries) - (expiredKeys - todo)
        decreases |todo|
      {
        var k :| k in todo;
        var removed := Remove(k);
        todo := todo - {k};
      }
      assert expiredKeys - todo == expiredKeys;
      LiveIsUnexpired(old(entries), now);
      LiveExpiredPartition(old(entries), now);
      LiveSizeAtMost(old(entries), now);
    }

    /** Writes the whole map; on any failure the previous file stays as it was. */
    method Persist(now: nat, fault: Option<string>) returns (r: Result<(), string>)
      modifies this`disk, this`lastPersist
      ensures fault.Some? ==> r == Err(fault.value) && disk == old(disk) && lastPersist == old(lastPersist)
      ensures fault.None? ==> r == Ok(()) && disk == Some(Snapshot(entries, now)) && lastPersist == now
    {
      if fault.Some? {
        return Err(fault.value);
      }
      disk := Some(Snapshot(entries, now));
      lastPersist := now;
      return Ok(());
    }

    /** Rebuilds the map and the counter from the snapshot, keeping what is live at `now`. */
    method LoadFromDisk(now: nat, fault: Option<string>) returns (r: Result<(), string>)
      requires Valid()
      modifies this`entries, this`currentSizeBytes
      ensures Valid()
      ensures disk.None? ==>
        r == Ok(()) && entries == old(entries) && currentSizeBytes == old(currentSizeBytes)
      ensures disk.Some? && fault.Some? ==>
        r == Err(fault.value) && entries == old(entries) && currentSizeBytes == old(currentSizeBytes)
      ensures disk.Some? && fault.None? ==> r == Ok(()) && entries == Live(disk.value.entries, now)
      ensures disk.Some? && fault.None? && TotalSize(disk.value.entries) <= MAX_MEMORY_BYTES ==> WithinCap()
    {
      if disk.None? {
        return Ok(());
      }
      if fault.Some? {
        return Err(fault.value);
      }
      var data := disk.value.entries;
      entries := map[];
      currentSizeBytes := 0;
      var todo := data.Keys;
      while todo != {}
        invariant todo <= data.Keys
        invariant entries == Live(data - todo, now)
        invariant Valid()
        decreases |todo|
      {
        var k :| k in todo;
        var entry := data[k];
        LiveAddBack(data, todo, k, now);
        if entry.expiresAt > now {
          TotalSizeUpdate(entries, k, entry);
          assert entries - {k} == entries;
          currentSizeBytes := currentSizeBytes + entry.sizeBytes;
          entries := entries[k := entry];
        }
        todo := todo - {k};
      }
      assert data - todo == data;
      LiveSizeAtMost(data, now);
      return Ok(());
    }
  }

  /** A snapshot taken at one time and loaded at a later one gives the entries live at load time. */
  method PersistThenLoad<K(==), V>(s: KvStore<K, V>, t0: nat, t1: nat)
    requires s.Valid()
    modifies s
    ensures s.Valid()
    ensures s.entries == Live(old(s.entries), t1)
    ensures old(s.WithinCap()) ==> s.WithinCap()
  {
    var p := s.Persist(t0, None);
    var l := s.LoadFromDisk(t1, None);
  }
}
