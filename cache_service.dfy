/**
 * `CacheService`: an in-memory TTL cache of video lists. The `Map` from
 * keys to entries is modelled as a sequence of slots with distinct keys, in
 * insertion order, because a JavaScript `Map` iterates in insertion order
 * and `set` on a present key keeps its position. `Date.now()` is the
 * parameter `now` of each operation.
 */
module CacheService {
  import opened Types

  /** 15 minutes, in milliseconds. */
  const DefaultTtl: int := 15 * 60 * 1000

  datatype CacheEntry = CacheEntry(data: seq<Video>, timestamp: int, ttl: int)

  datatype Slot = Slot(key: string, entry: CacheEntry)

  datatype CacheStats = CacheStats(totalEntries: nat, validEntries: nat, expiredEntries: nat,
                                   totalVideos: nat, defaultTtl: int)

  datatype CacheInfo = CacheInfo(size: nat, keys: seq<string>, stats: CacheStats)

  /** `ttl || this.defaultTTL`: an absent or zero ttl falls back to the default. */
  function EffectiveTtl(ttl: Option<int>): (r: int)
    ensures ttl.None? ==> r == DefaultTtl
    ensures ttl.Some? && ttl.value != 0 ==> r == ttl.value
    ensures ttl == Some(0) ==> r == DefaultTtl
  {
    if ttl.Some? && ttl.value != 0 then ttl.value else DefaultTtl
  }

  /** An entry is expired once more than its ttl has elapsed since it was stored; the boundary is still valid. */
  predicate Expired(e: CacheEntry, now: int)
  {
    now - e.timestamp > e.ttl
  }

  /** The keys in iteration order. */
  function Keys(slots: seq<Slot>): (ks: seq<string>)
    ensures |ks| == |slots| && forall i :: 0 <= i < |slots| ==> ks[i] == slots[i].key
  {
    if slots == [] then [] else [slots[0].key] + Keys(slots[1..])
  }

  predicate DistinctKeys(slots: seq<Slot>)
  {
    forall i, j :: 0 <= i < j < |slots| ==> slots[i].key != slots[j].key
  }

  /** `Map.prototype.get`. */
  function Lookup(slots: seq<Slot>, key: string): Option<CacheEntry>
  {
    if slots == [] then None
    else if slots[0].key == key then Some(slots[0].entry)
    else Lookup(slots[1..], key)
  }

  /** `Map.prototype.set`: replaces a present key's entry in place, else appends. */
  function Put(slots: seq<Slot>, key: string, e: CacheEntry): seq<Slot>
  {
    if slots == [] then [Slot(key, e)]
    else if slots[0].key == key then [Slot(key, e)] + slots[1..]
    else [slots[0]] + Put(slots[1..], key, e)
  }

  /** `Map.prototype.delete`. */
  function Delete(slots: seq<Slot>, key: string): seq<Slot>
  {
    if slots == [] then []
    else (if slots[0].key == key then [] else [slots[0]]) + Delete(slots[1..], key)
  }

  /** The slots whose entries are still valid at now, in order. */
  function Sweep(slots: seq<Slot>, now: int): seq<Slot>
  {
    if slots == [] then []
    else
      var last := slots[|slots| - 1];
      Sweep(slots[..|slots| - 1], now) + (if Expired(last.entry, now) then [] else [last])
  }

  function ValidCount(slots: seq<Slot>, now: int): nat
  {
    if slots == [] then 0
    else ValidCount(slots[..|slots| - 1], now) + (if Expired(slots[|slots| - 1].entry, now) then 0 else 1)
  }

  function ExpiredCount(slots: seq<Slot>, now: int): nat
  {
    if slots == [] then 0
    else ExpiredCount(slots[..|slots| - 1], now) + (if Expired(slots[|slots| - 1].entry, now) then 1 else 0)
  }

  /** The number of videos held by valid entries. */
  function ValidVideos(slots: seq<Slot>, now: int): nat
  {
    if slots == [] then 0
    else
      var last := slots[|slots| - 1];
      ValidVideos(slots[..|slots| - 1], now) + (if Expired(last.entry, now) then 0 else |last.entry.data|)
  }

  /** What `get(key)` returns at now: the stored data when the entry exists and has not expired. */
  function ValidData(slots: seq<Slot>, key: string, now: int): Option<seq<Video>>
  {
    match Lookup(slots, key)
    case None => None
    case Some(e) => if Expired(e, now) then None else Some(e.data)
  }

  // ---------------------------------------------------------------- lookup

  /** Under distinct keys, every stored slot is what its key finds. */
  lemma {:induction false} LookupUnique(slots: seq<Slot>, s: Slot)
    requires DistinctKeys(slots) && s in slots
    ensures Lookup(slots, s.key) == Some(s.entry)
  {
    if slots[0] != s {
      var j :| 0 <= j < |slots| && slots[j] == s;
      assert j > 0 && slots[1..][j - 1] == s;
      LookupUnique(slots[1..], s);
    }
  }

  /** A key that no slot carries finds nothing. */
  lemma {:induction false} LookupMissing(slots: seq<Slot>, key: string)
    requires forall s :: s in slots ==> s.key != key
    ensures Lookup(slots, key) == None
  {
    if slots != [] {
      assert slots[0] in slots;
      assert forall s :: s in slots[1..] ==> s in slots;
      LookupMissing(slots[1..], key);
    }
  }

  /** What a key finds is a stored slot, and a key finds nothing only when no slot carries it. */
  lemma {:induction false} LookupFound(slots: seq<Slot>, key: string)
    ensures Lookup(slots, key).Some? ==> Slot(key, Lookup(slots, key).value) in slots
    ensures Lookup(slots, key).None? ==> forall s :: s in slots ==> s.key != key
  {
    if slots != [] {
      LookupFound(slots[1..], key);
      assert slots == [slots[0]] + slots[1..];
    }
  }

  /** A key finds an entry exactly when it is stored. */
  lemma LookupSome(slots: seq<Slot>, key: string)
    ensures Lookup(slots, key).Some? <==> key in Keys(slots)
  {
    LookupFound(slots, key);
    if Lookup(slots, key).Some? {
      var j :| 0 <= j < |slots| && slots[j] == Slot(key, Lookup(slots, key).value);
      assert Keys(slots)[j] == key;
    } else {
      forall j | 0 <= j < |slots| ensures Keys(slots)[j] != key {
        assert slots[j] in slots;
      }
    }
  }

  /**
   * Looking a key up in a sub-collection of distinct slots finds the same entry
   * when the slot the full collection holds is kept, and nothing otherwise.
   */
  lemma LookupSub(full: seq<Slot>, sub: seq<Slot>, key: string)
    requires DistinctKeys(full) && DistinctKeys(sub)
    requires forall s :: s in sub ==> s in full
    ensures Lookup(full, key).None? ==> Lookup(sub, key).None?
    ensures Lookup(full, key).Some? ==>
              Slot(key, Lookup(full, key).value) in full
              && Lookup(sub, key) == if Slot(key, Lookup(full, key).value) in sub then Lookup(full, key) else None
  {
    LookupFound(full, key);
    var f := Lookup(full, key);
    if f.None? {
      LookupMissing(sub, key);
    } else if Slot(key, f.value) in sub {
      LookupUnique(sub, Slot(key, f.value));
    } else {
      forall s | s in sub ensures s.key != key {
        if s.key == key {
          LookupUnique(full, s);
        }
      }
      LookupMissing(sub, key);
    }
  }

  // ------------------------------------------------------------------- put

  /** set keeps a present key's position and appends a new key at the end. */
  lemma {:induction false} PutKeys(slots: seq<Slot>, key: string, e: CacheEntry)
    ensures Keys(Put(slots, key, e)) == if key in Keys(slots) then Keys(slots) else Keys(slots) + [key]
  {
    if slots != [] {
      var rest := slots[1..];
      PutKeys(rest, key, e);
      assert Keys(slots) == [slots[0].key] + Keys(rest);
      if slots[0].key == key {
        var r := [Slot(key, e)] + rest;
        assert Put(slots, key, e) == r;
        assert r[0].key == key && r[1..] == rest;
      } else {
        var r := [slots[0]] + Put(rest, key, e);
        assert Put(slots, key, e) == r;
        assert r[0] == slots[0] && r[1..] == Put(rest, key, e);
        assert key in Keys(slots) <==> key in Keys(rest);
      }
    }
  }

  /** set overwrites the entry of its key and leaves every other key's entry alone. */
  lemma {:induction false} PutLookup(slots: seq<Slot>, key: string, e: CacheEntry, other: string)
    ensures Lookup(Put(slots, key, e), key) == Some(e)
    ensures other != key ==> Lookup(Put(slots, key, e), other) == Lookup(slots, other)
  {
    if slots != [] && slots[0].key != key {
      PutLookup(slots[1..], key, e, other);
      var r := Put(slots, key, e);
      assert r == [slots[0]] + Put(slots[1..], key, e);
      assert r[0] == slots[0] && r[1..] == Put(slots[1..], key, e);
    }
  }

  /** set keeps the keys distinct. */
  lemma PutDistinct(slots: seq<Slot>, key: string, e: CacheEntry)
    requires DistinctKeys(slots)
    ensures DistinctKeys(Put(slots, key, e))
  {
    PutKeys(slots, key, e);
    var r := Put(slots, key, e);
    forall i, j | 0 <= i < j < |r| ensures r[i].key != r[j].key {
      assert Keys(r)[i] == r[i].key && Keys(r)[j] == r[j].key;
      if key !in Keys(slots) && j == |slots| {
        assert Keys(slots)[i] == r[i].key;
      }
    }
  }

  // ---------------------------------------------------------------- delete

  /** delete removes exactly its key. */
  lemma {:induction false} DeleteSpec(slots: seq<Slot>, key: string, other: string)
    ensures Lookup(Delete(slots, key), key) == None
    ensures other != key ==> Lookup(Delete(slots, key), other) == Lookup(slots, other)
    ensures forall s :: s in Delete(slots, key) <==> s in slots && s.key != key
  {
    if slots != [] {
      DeleteSpec(slots[1..], key, other);
      assert slots == [slots[0]] + slots[1..];
      var r := Delete(slots, key);
      if slots[0].key != key {
        assert r == [slots[0]] + Delete(slots[1..], key);
        assert r[0] == slots[0] && r[1..] == Delete(slots[1..], key);
      } else {
        assert r == Delete(slots[1..], key);
      }
    }
  }

  /** Deleting from a concatenation deletes from both parts. */
  lemma {:induction false} DeleteConcat(a: seq<Slot>, b: seq<Slot>, key: string)
    ensures Delete(a + b, key) == Delete(a, key) + Delete(b, key)
  {
    if a == [] {
      assert a + b == b;
    } else {
      assert (a + b)[1..] == a[1..] + b;
      DeleteConcat(a[1..], b, key);
    }
  }

  /** Deleting an absent key changes nothing. */
  lemma {:induction false} DeleteAbsent(slots: seq<Slot>, key: string)
    requires forall s :: s in slots ==> s.key != key
    ensures Delete(slots, key) == slots
  {
    if slots != [] {
      assert slots[0] in slots;
      assert forall s :: s in slots[1..] ==> s in slots;
      DeleteAbsent(slots[1..], key);
      assert slots == [slots[0]] + slots[1..];
    }
  }

  /** Deleting keeps the keys distinct. */
  lemma {:induction false} DeleteDistinct(slots: seq<Slot>, key: string)
    requires DistinctKeys(slots)
    ensures DistinctKeys(Delete(slots, key))
  {
    if slots != [] {
      DeleteDistinct(slots[1..], key);
      DeleteSpec(slots[1..], key, key);
      var rest := Delete(slots[1..], key);
      forall s | s in rest ensures s.key != slots[0].key {
        var j :| 0 <= j < |slots[1..]| && slots[1..][j] == s;
        assert slots[j + 1] == s;
      }
    }
  }

  // ----------------------------------------------------------------- sweep

  /** The census partitions the entries into valid and expired ones. */
  lemma {:induction false} Census(slots: seq<Slot>, now: int)
    ensures ValidCount(slots, now) + ExpiredCount(slots, now) == |slots|
  {
    if slots != [] {
      Census(slots[..|slots| - 1], now);
    }
  }

  /** After a sweep nothing is expired, and the valid entries and their videos are all still there. */
  lemma {:induction false} SweepCensus(slots: seq<Slot>, now: int)
    ensures ExpiredCount(Sweep(slots, now), now) == 0
    ensures ValidCount(Sweep(slots, now), now) == ValidCount(slots, now) == |Sweep(slots, now)|
    ensures ValidVideos(Sweep(slots, now), now) == ValidVideos(slots, now)
  {
    if slots != [] {
      var init, last := slots[..|slots| - 1], slots[|slots| - 1];
      SweepCensus(init, now);
      var r := Sweep(slots, now);
      if Expired(last.entry, now) {
        assert r == Sweep(init, now);
      } else {
        assert r[..|r| - 1] == Sweep(init, now);
      }
    }
  }

  /** The swept slots are exactly the valid ones, in order. */
  lemma {:induction false} SweepMembers(slots: seq<Slot>, now: int)
    ensures forall s :: s in Sweep(slots, now) <==> s in slots && !Expired(s.entry, now)
  {
    if slots != [] {
      var init := slots[..|slots| - 1];
      SweepMembers(init, now);
      assert slots == init + [slots[|slots| - 1]];
    }
  }

  /** A sweep keeps the keys distinct. */
  lemma {:induction false} SweepDistinct(slots: seq<Slot>, now: int)
    requires DistinctKeys(slots)
    ensures DistinctKeys(Sweep(slots, now))
  {
    if slots != [] {
      var init, last := slots[..|slots| - 1], slots[|slots| - 1];
      SweepDistinct(init, now);
      SweepMembers(init, now);
      var swept := Sweep(init, now);
      forall s | s in swept ensures s.key != last.key {
        var j :| 0 <= j < |init| && init[j] == s;
        assert slots[j] == s;
      }
    }
  }

  /** Under distinct keys, a sweep keeps a key's entry exactly when it is valid. */
  lemma SweepLookup(slots: seq<Slot>, key: string, now: int)
    requires DistinctKeys(slots)
    ensures Lookup(Sweep(slots, now), key)
            == if Lookup(slots, key).Some? && !Expired(Lookup(slots, key).value, now) then Lookup(slots, key) else None
  {
    SweepMembers(slots, now);
    SweepDistinct(slots, now);
    LookupSub(slots, Sweep(slots, now), key);
  }

  /** A sweep at now is invisible to every later get: what is valid later was valid at now. */
  lemma SweepInvisible(slots: seq<Slot>, key: string, now: int, later: int)
    requires DistinctKeys(slots) && now <= later
    ensures ValidData(Sweep(slots, now), key, later) == ValidData(slots, key, later)
  {
    SweepLookup(slots, key, now);
  }

  /** set followed by get at the same instant returns the data, unless a negative ttl expires it at once. */
  lemma SetThenGet(slots: seq<Slot>, key: string, data: seq<Video>, ttl: Option<int>, now: int)
    ensures ValidData(Put(slots, key, CacheEntry(data, now, EffectiveTtl(ttl))), key, now)
            == if EffectiveTtl(ttl) >= 0 then Some(data) else None
    ensures ttl.None? || ttl == Some(0) || ttl.value > 0 ==>
              ValidData(Put(slots, key, CacheEntry(data, now, EffectiveTtl(ttl))), key, now) == Some(data)
  {
    PutLookup(slots, key, CacheEntry(data, now, EffectiveTtl(ttl)), key);
  }

  // ----------------------------------------------------------------- class

  class Cache {
    var slots: seq<Slot>

    ghost predicate Valid()
      reads this
    {
      DistinctKeys(slots)
    }

    constructor()
      ensures Valid() && slots == []
    {
      slots := [];
    }

    /** `set(key, data, ttl)`: stores `{data, now, ttl || defaultTTL}` under key. */
    method Set(key: string, data: seq<Video>, ttl: Option<int>, now: int)
      requires Valid()
      modifies this
      ensures Valid()
      ensures slots == Put(old(slots), key, CacheEntry(data, now, EffectiveTtl(ttl)))
    {
      PutDistinct(slots, key, CacheEntry(data, now, EffectiveTtl(ttl)));
      slots := Put(slots, key, CacheEntry(data, now, EffectiveTtl(ttl)));
    }

    /** `get(key)`: the valid data, or None; an expired entry is deleted on the way. */
    method Get(key: string, now: int) returns (r: Option<seq<Video>>)
      requires Valid()
      modifies this
      ensures Valid()
      ensures r == ValidData(old(slots), key, now)
      ensures slots == if Lookup(old(slots), key).Some? && Expired(Lookup(old(slots), key).value, now)
                       then Delete(old(slots), key) else old(slots)
    {
      var entry := Lookup(slots, key);
      if entry.None? {
        return None;
      }
      if now - entry.value.timestamp > entry.value.ttl {
        DeleteDistinct(slots, key);
        slots := Delete(slots, key);
        return None;
      }
      return Some(entry.value.data);
    }

    /** `has(key)`: whether get returns data, with get's eviction. */
    method Has(key: string, now: int) returns (b: bool)
      requires Valid()
      modifies this
      ensures Valid()
      ensures b <==> ValidData(old(slots), key, now).Some?
      ensures slots == if Lookup(old(slots), key).Some? && Expired(Lookup(old(slots), key).value, now)
                       then Delete(old(slots), key) else old(slots)
    {
      var r := Get(key, now);
      b := r.Some?;
    }

    method Clear()
      modifies this
      ensures Valid() && slots == []
    {
      slots := [];
    }

    /** `getCacheInfo()`: a census of the slots at now; the cache is left as it is. */
    method GetCacheInfo(now: int) returns (info: CacheInfo)
      ensures info.size == info.stats.totalEntries == |slots|
      ensures info.keys == Keys(slots)
      ensures info.stats.validEntries == ValidCount(slots, now)
      ensures info.stats.expiredEntries == ExpiredCount(slots, now)
      ensures info.stats.totalVideos == ValidVideos(slots, now)
      ensures info.stats.defaultTtl == DefaultTtl
      ensures info.stats.validEntries + info.stats.expiredEntries == info.stats.totalEntries
    {
      var totalSize := 0;
      var expiredCount := 0;
      var validCount := 0;
      var i := 0;
      while i < |slots|
        invariant 0 <= i <= |slots|
        invariant validCount == ValidCount(slots[..i], now)
        invariant expiredCount == ExpiredCount(slots[..i], now)
        invariant totalSize == ValidVideos(slots[..i], now)
      {
        var entry := slots[i].entry;
        assert slots[..i + 1][..i] == slots[..i];
        if now - entry.timestamp > entry.ttl {
          expiredCount := expiredCount + 1;
        } else {
          validCount := validCount + 1;
          totalSize := totalSize + |entry.data|;
        }
        i := i + 1;
      }
      assert slots[..i] == slots;
      Census(slots, now);
      info := CacheInfo(|slots|, Keys(slots),
                        CacheStats(|slots|, validCount, expiredCount, totalSize, DefaultTtl));
    }

    /** `cleanup()`: deletes every expired entry while iterating over the entries. */
    method Cleanup(now: int)
      requires Valid()
      modifies this
      ensures Valid()
      ensures slots == Sweep(old(slots), now)
    {
      var snapshot := slots;
      var i := 0;
      while i < |snapshot|
        invariant 0 <= i <= |snapshot|
        invariant slots == Sweep(snapshot[..i], now) + snapshot[i..]
      {
        var slot := snapshot[i];
        CleanupStep(snapshot, i, now);
        if now - slot.entry.timestamp > slot.entry.ttl {
          slots := Delete(slots, slot.key);
        }
        i := i + 1;
      }
      assert snapshot[..i] == snapshot;
      SweepDistinct(snapshot, now);
    }
  }

  /** The sweep of a prefix grows by the next slot when that slot is valid. */
  lemma SweepNext(slots: seq<Slot>, i: int, now: int)
    requires 0 <= i < |slots|
    ensures Sweep(slots[..i + 1], now) == Sweep(slots[..i], now) + (if Expired(slots[i].entry, now) then [] else [slots[i]])
  {
    assert slots[..i + 1][..i] == slots[..i];
  }

  /** Under distinct keys, no slot before or after index i carries the key of slot i. */
  lemma KeyOnlyAt(slots: seq<Slot>, i: int)
    requires DistinctKeys(slots) && 0 <= i < |slots|
    ensures forall s :: s in slots[..i] ==> s.key != slots[i].key
    ensures forall s :: s in slots[i + 1..] ==> s.key != slots[i].key
  {
    forall s | s in slots[..i] ensures s.key != slots[i].key {
      var j :| 0 <= j < i && slots[..i][j] == s;
      assert slots[j] == s;
    }
    forall s | s in slots[i + 1..] ensures s.key != slots[i].key {
      var j :| 0 <= j < |slots[i + 1..]| && slots[i + 1..][j] == s;
      assert slots[i + 1 + j] == s;
    }
  }

  /**
   * One step of the cleanup loop: deleting the current key when it is expired
   * turns the state after i slots into the state after i + 1.
   */
  lemma CleanupStep(snapshot: seq<Slot>, i: int, now: int)
    requires DistinctKeys(snapshot) && 0 <= i < |snapshot|
    ensures var before := Sweep(snapshot[..i], now) + snapshot[i..];
            var after := Sweep(snapshot[..i + 1], now) + snapshot[i + 1..];
            if Expired(snapshot[i].entry, now) then Delete(before, snapshot[i].key) == after else before == after
  {
    var done, slot, rest := Sweep(snapshot[..i], now), snapshot[i], snapshot[i + 1..];
    SweepNext(snapshot, i, now);
    assert snapshot[i..] == [slot] + rest;
    if Expired(slot.entry, now) {
      assert Sweep(snapshot[..i + 1], now) == done;
      KeyOnlyAt(snapshot, i);
      KeyNotSwept(snapshot, i, now);
      DeleteCurrent(done, slot, rest);
    } else {
      assert Sweep(snapshot[..i + 1], now) == done + [slot];
      assert done + ([slot] + rest) == (done + [slot]) + rest;
    }
  }

  /** Under distinct keys, no slot swept before index i carries the key of slot i. */
  lemma KeyNotSwept(snapshot: seq<Slot>, i: int, now: int)
    requires DistinctKeys(snapshot) && 0 <= i < |snapshot|
    ensures forall s :: s in Sweep(snapshot[..i], now) ==> s.key != snapshot[i].key
  {
    KeyOnlyAt(snapshot, i);
    SweepMembers(snapshot[..i], now);
  }

  /** Deleting the current key removes exactly the current slot. */
  lemma DeleteCurrent(done: seq<Slot>, slot: Slot, rest: seq<Slot>)
    requires forall s :: s in done ==> s.key != slot.key
    requires forall s :: s in rest ==> s.key != slot.key
    ensures Delete(done + ([slot] + rest), slot.key) == done + rest
  {
    var tail := [slot] + rest;
    DeleteAbsent(done, slot.key);
    DeleteAbsent(rest, slot.key);
    DeleteConcat(done, tail, slot.key);
    assert tail[0] == slot && tail[1..] == rest;
    assert Delete(tail, slot.key) == Delete(rest, slot.key);
  }
}
