/** The bounded cache of upstream answers. */
module Cache {
  import opened Prelude
  import opened Wire

  /** The DO bit belongs to the key: section 6.1.4 of RFC 6891. */
  datatype Key = Key(qname: string, qtype: nat, qclass: nat, dnssecOk: bool)

  /** One entry of the insertion-ordered dictionary; `payload` has its id zeroed. */
  datatype Slot = Slot(key: Key, payload: bytes, expiresAt: real)

  const MIN_TTL := 1
  const MAX_TTL := 3600
  const MAX_NEGATIVE_TTL := 5

  function Min(a: int, b: int): int { if a <= b then a else b }

  function Max(a: int, b: int): int { if a >= b then a else b }

  function ClampTtl(payload: bytes, ttl: int): (seconds: int)
    ensures MIN_TTL <= seconds <= MAX_TTL
    ensures ttl < 1 ==> seconds == 1
    ensures Rcode(payload) == 0 && ttl > 3600 ==> seconds == 3600
    ensures Rcode(payload) != 0 && ttl > 5 ==> seconds == 5
    ensures 1 <= ttl <= (if Rcode(payload) != 0 then 5 else 3600) ==> seconds == ttl
  {
    var capped := if Rcode(payload) != 0 then Min(ttl, MAX_NEGATIVE_TTL) else ttl;
    Max(MIN_TTL, Min(capped, MAX_TTL))
  }

  function Find(slots: seq<Slot>, key: Key): (r: Option<Slot>)
    ensures r.Some? ==> r.value in slots && r.value.key == key
    ensures r.None? ==> forall s <- slots :: s.key != key
  {
    if slots == [] then None
    else if slots[0].key == key then Some(slots[0])
    else Find(slots[1..], key)
  }

  function Without(slots: seq<Slot>, key: Key): (r: seq<Slot>)
    ensures |r| <= |slots|
  {
    if slots == [] then []
    else if slots[0].key == key then Without(slots[1..], key)
    else [slots[0]] + Without(slots[1..], key)
  }

  lemma {:induction false} WithoutMembers(slots: seq<Slot>, key: Key)
    ensures forall s :: s in Without(slots, key) <==> s in slots && s.key != key
  {
    if slots != [] {
      WithoutMembers(slots[1..], key);
    }
  }

  /** What is left after the oldest entries are dropped until at most `maxEntries` remain. */
  function Newest(slots: seq<Slot>, maxEntries: nat): seq<Slot> {
    if |slots| <= maxEntries then slots else slots[|slots| - maxEntries..]
  }

  function SlotFor(key: Key, payload: bytes, ttl: int, now: real): Slot {
    Slot(key, WithTxid(payload, 0), now + ClampTtl(payload, ttl) as real)
  }

  function AfterPut(maxEntries: nat, slots: seq<Slot>, key: Key, payload: bytes, ttl: int, now: real): seq<Slot> {
    Newest(Without(slots, key) + [SlotFor(key, payload, ttl, now)], maxEntries)
  }

  /** A lookup discards the entry it finds expired. */
  function AfterGet(slots: seq<Slot>, key: Key, now: real): seq<Slot> {
    match Find(slots, key)
    case Some(slot) => if slot.expiresAt <= now then Without(slots, key) else slots
    case None => slots
  }

  function Answer(slots: seq<Slot>, key: Key, requestId: int, now: real): Option<bytes> {
    match Find(slots, key)
    case Some(slot) => if slot.expiresAt <= now then None else Some(WithTxid(slot.payload, requestId))
    case None => None
  }

  predicate DistinctKeys(slots: seq<Slot>) {
    forall i, j :: 0 <= i < j < |slots| ==> slots[i].key != slots[j].key
  }

  datatype Stats = Stats(hits: nat, misses: nat, expired: nat, evicted: nat, stored: nat)

  class Cache {
    const maxEntries: nat
    var entries: seq<Slot>
    var stats: Stats

    constructor (maxEntries: nat)
      ensures this.maxEntries == maxEntries && entries == [] && stats == Stats(0, 0, 0, 0, 0)
    {
      this.maxEntries := maxEntries;
      entries := [];
      stats := Stats(0, 0, 0, 0, 0);
    }

    method Get(key: Key, requestId: int, now: real) returns (r: Option<bytes>)
      modifies this
      ensures r == Answer(old(entries), key, requestId, now)
      ensures entries == AfterGet(old(entries), key, now)
      ensures r.None? ==> forall slot :: slot in entries <==> slot in old(entries) && slot.key != key
      ensures r.Some? ==> entries == old(entries)
                          && exists slot :: slot in entries && slot.key == key && now < slot.expiresAt
                                            && r.value == WithTxid(slot.payload, requestId)
      ensures stats.hits + stats.misses == old(stats.hits + stats.misses) + 1
      ensures stats.hits == old(stats.hits) + (if r.Some? then 1 else 0)
      ensures stats.expired == old(stats.expired) + (if entries != old(entries) then 1 else 0)
      ensures stats.evicted == old(stats.evicted) && stats.stored == old(stats.stored)
    {
      var entry := Find(entries, key);
      if entry.None? {
        stats := stats.(misses := stats.misses + 1);
        return None;
      }
      if entry.value.expiresAt <= now {
        WithoutMembers(entries, key);
        assert entry.value in entries && entry.value !in Without(entries, key);
        entries := Without(entries, key);
        stats := stats.(expired := stats.expired + 1, misses := stats.misses + 1);
        return None;
      }
      stats := stats.(hits := stats.hits + 1);
      return Some(WithTxid(entry.value.payload, requestId));
    }

    method Put(key: Key, payload: bytes, ttl: int, now: real)
      modifies this
      ensures entries == AfterPut(maxEntries, old(entries), key, payload, ttl, now)
      ensures stats.stored == old(stats.stored) + 1
      ensures stats.evicted - old(stats.evicted) == |Without(old(entries), key)| + 1 - |entries|
      ensures stats.hits == old(stats.hits) && stats.misses == old(stats.misses) && stats.expired == old(stats.expired)
    {
      var seconds := ttl;
      if Rcode(payload) != 0 {
        seconds := Min(seconds, MAX_NEGATIVE_TTL);
      }
      seconds := Max(MIN_TTL, Min(seconds, MAX_TTL));
      entries := Without(entries, key) + [Slot(key, WithTxid(payload, 0), now + seconds as real)];
      stats := stats.(stored := stats.stored + 1);
      EvictOldest();
    }

    method EvictOldest()
      modifies this
      ensures entries == Newest(old(entries), maxEntries)
      ensures stats == old(stats).(evicted := old(stats.evicted) + |old(entries)| - |entries|)
    {
      var dropped := 0;
      while |entries| > maxEntries
        invariant 0 <= dropped <= |old(entries)| && entries == old(entries)[dropped..]
        invariant dropped == 0 || |entries| >= maxEntries
        invariant stats == old(stats).(evicted := old(stats.evicted) + dropped)
        decreases |entries|
      {
        entries := entries[1..];
        stats := stats.(evicted := stats.evicted + 1);
        dropped := dropped + 1;
      }
    }

    method Clear()
      modifies this`entries
      ensures entries == []
    {
      entries := [];
    }
  }
}
