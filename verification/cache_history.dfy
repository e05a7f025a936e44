/** The bounded cache against an unbounded map from keys to the last bytes put for them. */
module CacheHistory {
  import opened Prelude
  import opened Wire
  import opened Cache

  datatype Op =
    | Put(key: Key, payload: bytes, ttl: int, at: real)
    | Get(key: Key, requestId: int, at: real)
    | Clear

  function Apply(maxEntries: nat, slots: seq<Slot>, op: Op): seq<Slot> {
    match op
    case Put(key, payload, ttl, at) => AfterPut(maxEntries, slots, key, payload, ttl, at)
    case Get(key, _, at) => AfterGet(slots, key, at)
    case Clear => []
  }

  /** The entries after a whole history of calls on an empty cache. */
  function Entries(maxEntries: nat, ops: seq<Op>): seq<Slot> {
    if ops == [] then []
    else Apply(maxEntries, Entries(maxEntries, ops[..|ops| - 1]), ops[|ops| - 1])
  }

  /** The unbounded map: the last put of `key` that no clear has followed. */
  function LastPut(ops: seq<Op>, key: Key): (r: Option<nat>)
    ensures r.Some? ==> r.value < |ops| && ops[r.value].Put? && ops[r.value].key == key
  {
    if ops == [] then None
    else
      var n := |ops| - 1;
      match ops[n]
      case Clear => None
      case Put(k, _, _, _) => if k == key then Some(n) else LastPut(ops[..n], key)
      case Get(_, _, _) => LastPut(ops[..n], key)
  }

  function Expiry(op: Op): real
    requires op.Put?
  {
    op.at + ClampTtl(op.payload, op.ttl) as real
  }

  /** The distinct keys put after position `i`. */
  function PutSince(ops: seq<Op>, i: nat): set<Key> {
    set j | i < j < |ops| && ops[j].Put? :: ops[j].key
  }

  /** Why a key that was put may no longer be stored. */
  ghost predicate Gone(maxEntries: nat, ops: seq<Op>, i: nat, now: real)
    requires i < |ops| && ops[i].Put?
  {
    |PutSince(ops, i)| >= maxEntries || Expiry(ops[i]) <= now
  }

  /** Every slot is what the last put of its key stored. */
  ghost predicate Stamped(ops: seq<Op>, slots: seq<Slot>) {
    forall p :: 0 <= p < |slots| ==>
      LastPut(ops, slots[p].key).Some? &&
      var op := ops[LastPut(ops, slots[p].key).value];
      slots[p] == SlotFor(op.key, op.payload, op.ttl, op.at)
  }

  ghost predicate InPutOrder(ops: seq<Op>, slots: seq<Slot>)
    requires Stamped(ops, slots)
  {
    forall p, q :: 0 <= p < q < |slots| ==>
      LastPut(ops, slots[p].key).value < LastPut(ops, slots[q].key).value
  }

  ghost predicate Complete(maxEntries: nat, ops: seq<Op>, slots: seq<Slot>, now: real) {
    forall key :: LastPut(ops, key).Some? ==>
      Find(slots, key).Some? || Gone(maxEntries, ops, LastPut(ops, key).value, now)
  }

  ghost predicate Tracks(maxEntries: nat, ops: seq<Op>, slots: seq<Slot>, now: real) {
    && |slots| <= maxEntries
    && Stamped(ops, slots)
    && InPutOrder(ops, slots)
    && Complete(maxEntries, ops, slots, now)
  }

  lemma {:induction false} WithoutKeepsOrder(slots: seq<Slot>, key: Key)
    requires DistinctKeys(slots)
    ensures DistinctKeys(Without(slots, key))
    ensures Find(slots, key).Some? ==> |Without(slots, key)| == |slots| - 1
    ensures Find(slots, key).None? ==> Without(slots, key) == slots
  {
    if slots != [] {
      WithoutKeepsOrder(slots[1..], key);
      WithoutMembers(slots[1..], key);
      if slots[0].key == key {
        assert forall s <- slots[1..] :: s.key != key;
      }
    }
  }

  /** `Find` sees every slot of a list without repeated keys. */
  lemma {:induction false} FindInDistinct(slots: seq<Slot>, p: nat)
    requires DistinctKeys(slots) && p < |slots|
    ensures Find(slots, slots[p].key) == Some(slots[p])
  {
    if p > 0 {
      FindInDistinct(slots[1..], p - 1);
    }
  }

  /** Where the p-th survivor of a removal stood. */
  function Place(slots: seq<Slot>, key: Key, p: nat): (i: nat)
    requires p < |Without(slots, key)|
    ensures i < |slots| && slots[i] == Without(slots, key)[p]
  {
    if slots[0].key == key then 1 + Place(slots[1..], key, p)
    else if p == 0 then 0
    else 1 + Place(slots[1..], key, p - 1)
  }

  /** A removal keeps the survivors in order. */
  lemma {:induction false} PlacesAscend(slots: seq<Slot>, key: Key, p: nat, q: nat)
    requires p < q < |Without(slots, key)|
    ensures Place(slots, key, p) < Place(slots, key, q)
  {
    if slots[0].key == key {
      PlacesAscend(slots[1..], key, p, q);
    } else if p > 0 {
      PlacesAscend(slots[1..], key, p - 1, q - 1);
    }
  }

  lemma WithoutKeepsTracks(ops: seq<Op>, slots: seq<Slot>, key: Key)
    requires Stamped(ops, slots) && InPutOrder(ops, slots)
    ensures Stamped(ops, Without(slots, key)) && InPutOrder(ops, Without(slots, key))
  {
    var r := Without(slots, key);
    WithoutMembers(slots, key);
    assert Stamped(ops, r) by {
      forall p | 0 <= p < |r|
        ensures LastPut(ops, r[p].key).Some?
        ensures var op := ops[LastPut(ops, r[p].key).value]; r[p] == SlotFor(op.key, op.payload, op.ttl, op.at)
      {
        assert r[p] in slots;
      }
    }
    forall p, q | 0 <= p < q < |r|
      ensures LastPut(ops, r[p].key).value < LastPut(ops, r[q].key).value
    {
      PlacesAscend(slots, key, p, q);
      var i, j := Place(slots, key, p), Place(slots, key, q);
      assert LastPut(ops, slots[i].key).value < LastPut(ops, slots[j].key).value;
    }
  }

  /** Two slots of one list hold different keys: they have different last puts. */
  lemma TrackedKeysDiffer(ops: seq<Op>, slots: seq<Slot>)
    requires Stamped(ops, slots) && InPutOrder(ops, slots)
    ensures DistinctKeys(slots)
  {
    forall i, j | 0 <= i < j < |slots| ensures slots[i].key != slots[j].key {
      assert LastPut(ops, slots[i].key).value < LastPut(ops, slots[j].key).value;
    }
  }

  lemma LaterPutCounts(ops: seq<Op>, earlier: Key, later: Key)
    requires LastPut(ops, earlier).Some? && LastPut(ops, later).Some?
    requires LastPut(ops, earlier).value < LastPut(ops, later).value
    ensures later in PutSince(ops, LastPut(ops, earlier).value)
  {
    var j := LastPut(ops, later).value;
    assert ops[j].key == later;
  }

  /** A slot dropped as the oldest had a whole cache of later keys behind it. */
  lemma EvictedIsOld(maxEntries: nat, ops: seq<Op>, slots: seq<Slot>)
    requires |slots| == maxEntries + 1 && Stamped(ops, slots) && InPutOrder(ops, slots)
    ensures |PutSince(ops, LastPut(ops, slots[0].key).value)| >= maxEntries
  {
    TrackedKeysDiffer(ops, slots);
    var i := LastPut(ops, slots[0].key).value;
    var keys := seq(maxEntries, p requires 0 <= p < maxEntries => slots[p + 1].key);
    forall p | 0 <= p < |keys| ensures keys[p] in PutSince(ops, i) {
      LaterPutCounts(ops, slots[0].key, slots[p + 1].key);
    }
    DistinctCardinality(keys, PutSince(ops, i));
  }

  lemma PutSinceGrows(ops: seq<Op>, op: Op, i: nat)
    requires i < |ops|
    ensures |PutSince(ops, i)| <= |PutSince(ops + [op], i)|
  {
    forall k | k in PutSince(ops, i) ensures k in PutSince(ops + [op], i) {
      var j :| i < j < |ops| && ops[j].Put? && ops[j].key == k;
      assert (ops + [op])[j] == ops[j];
    }
    SubsetCardinality(PutSince(ops, i), PutSince(ops + [op], i));
  }

  lemma GetKeepsTracking(maxEntries: nat, ops: seq<Op>, op: Op, slots: seq<Slot>, now: real)
    requires op.Get? && Tracks(maxEntries, ops, slots, now) && now <= op.at
    ensures Tracks(maxEntries, ops + [op], Apply(maxEntries, slots, op), op.at)
  {
    var ops', slots' := ops + [op], Apply(maxEntries, slots, op);
    assert ops'[..|ops|] == ops;
    WithoutKeepsTracks(ops, slots, op.key);
    WithoutMembers(slots, op.key);
    assert Stamped(ops, slots') && InPutOrder(ops, slots');
    assert forall key :: LastPut(ops', key) == LastPut(ops, key);
    forall key | LastPut(ops', key).Some?
      ensures Find(slots', key).Some? || Gone(maxEntries, ops', LastPut(ops', key).value, op.at)
    {
      var i := LastPut(ops, key).value;
      PutSinceGrows(ops, op, i);
      if Find(slots, key).Some? && Find(slots', key).None? {
        var s := Find(slots, key).value;
        assert s !in slots';
        var p :| 0 <= p < |slots| && slots[p] == s;
        assert key == op.key && s.expiresAt == Expiry(ops[i]);
      }
    }
  }

  lemma LastPutAfterPut(ops: seq<Op>, op: Op, key: Key)
    requires op.Put?
    ensures LastPut(ops + [op], key) == if key == op.key then Some(|ops|) else LastPut(ops, key)
  {
    assert (ops + [op])[..|ops|] == ops;
  }

  /** The list a put builds before it evicts. */
  lemma PutExtends(ops: seq<Op>, op: Op, slots: seq<Slot>)
    requires op.Put? && Stamped(ops, slots) && InPutOrder(ops, slots)
    ensures var all := Without(slots, op.key) + [SlotFor(op.key, op.payload, op.ttl, op.at)];
            Stamped(ops + [op], all) && InPutOrder(ops + [op], all)
  {
    var ops' := ops + [op];
    WithoutKeepsTracks(ops, slots, op.key);
    WithoutMembers(slots, op.key);
    var kept := Without(slots, op.key);
    var all := kept + [SlotFor(op.key, op.payload, op.ttl, op.at)];
    forall p | 0 <= p < |kept|
      ensures all[p] == kept[p] && LastPut(ops', all[p].key) == LastPut(ops, kept[p].key)
    {
      assert kept[p] in kept;
      LastPutAfterPut(ops, op, kept[p].key);
    }
    LastPutAfterPut(ops, op, op.key);
    assert Stamped(ops', all) by {
      forall p | 0 <= p < |all|
        ensures LastPut(ops', all[p].key).Some?
        ensures var o := ops'[LastPut(ops', all[p].key).value]; all[p] == SlotFor(o.key, o.payload, o.ttl, o.at)
      {
        if p < |kept| { assert LastPut(ops', all[p].key) == LastPut(ops, kept[p].key); }
      }
    }
  }

  lemma PutKeepsTracking(maxEntries: nat, ops: seq<Op>, op: Op, slots: seq<Slot>, now: real)
    requires op.Put? && Tracks(maxEntries, ops, slots, now) && now <= op.at
    ensures Tracks(maxEntries, ops + [op], Apply(maxEntries, slots, op), op.at)
  {
    var ops' := ops + [op];
    PutExtends(ops, op, slots);
    forall key ensures LastPut(ops', key) == if key == op.key then Some(|ops|) else LastPut(ops, key) {
      LastPutAfterPut(ops, op, key);
    }
    TrackedKeysDiffer(ops, slots);
    WithoutKeepsOrder(slots, op.key);
    WithoutMembers(slots, op.key);
    var kept := Without(slots, op.key);
    var all := kept + [SlotFor(op.key, op.payload, op.ttl, op.at)];
    if Find(slots, op.key).None? { assert |all| <= maxEntries + 1; }
    forall key | LastPut(ops', key).Some?
      ensures Find(Newest(all, maxEntries), key).Some? || Gone(maxEntries, ops', LastPut(ops', key).value, op.at)
    {
      if key == op.key {
        assert all[|kept|].key == key;
        StillThereOrEvicted(maxEntries, ops', all, key);
      } else {
        PutSinceGrows(ops, op, LastPut(ops, key).value);
        if Find(slots, key).Some? {
          assert Find(slots, key).value in kept && Find(slots, key).value in all;
          StillThereOrEvicted(maxEntries, ops', all, key);
        }
      }
    }
    NewestTracks(maxEntries, ops', all);
  }

  lemma NewestTracks(maxEntries: nat, ops: seq<Op>, all: seq<Slot>)
    requires Stamped(ops, all) && InPutOrder(ops, all)
    ensures Stamped(ops, Newest(all, maxEntries)) && InPutOrder(ops, Newest(all, maxEntries))
  {
  }

  /** After a put, a key of the extended list is either kept or was the oldest of too many. */
  lemma StillThereOrEvicted(maxEntries: nat, ops: seq<Op>, all: seq<Slot>, key: Key)
    requires |all| <= maxEntries + 1 && Stamped(ops, all) && InPutOrder(ops, all)
    requires exists s :: s in all && s.key == key
    ensures Find(Newest(all, maxEntries), key).Some?
            || |PutSince(ops, LastPut(ops, key).value)| >= maxEntries
  {
    var s :| s in all && s.key == key;
    if s !in Newest(all, maxEntries) {
      assert all == [all[0]] + all[1..];
      assert s == all[0];
      EvictedIsOld(maxEntries, ops, all);
    }
  }

  /** The last reading of a clock that has answered every call of the history. */
  ghost predicate Clocked(ops: seq<Op>, now: real) {
    ops == [] || (
      var last := ops[|ops| - 1];
      if last.Clear? then Clocked(ops[..|ops| - 1], now)
      else last.at <= now && Clocked(ops[..|ops| - 1], last.at)
    )
  }

  lemma {:induction false} TrackedOverHistory(maxEntries: nat, ops: seq<Op>, now: real)
    requires Clocked(ops, now)
    ensures Tracks(maxEntries, ops, Entries(maxEntries, ops), now)
  {
    if ops != [] {
      var n := |ops| - 1;
      var before, last := ops[..n], ops[n];
      assert ops == before + [last];
      match last
      case Clear =>
      case Get(_, _, at) =>
        TrackedOverHistory(maxEntries, before, at);
        GetKeepsTracking(maxEntries, before, last, Entries(maxEntries, before), at);
      case Put(_, _, _, at) =>
        TrackedOverHistory(maxEntries, before, at);
        PutKeepsTracking(maxEntries, before, last, Entries(maxEntries, before), at);
    }
  }

  /** Every hit is the last bytes put for the key, with only the id replaced, still inside
      the lifetime that put gave them. */
  lemma HitIsTheLastPut(maxEntries: nat, ops: seq<Op>, key: Key, requestId: int, now: real)
    requires Clocked(ops, now)
    requires Answer(Entries(maxEntries, ops), key, requestId, now).Some?
    ensures LastPut(ops, key).Some?
    ensures var put := ops[LastPut(ops, key).value];
            && Answer(Entries(maxEntries, ops), key, requestId, now).value == WithTxid(put.payload, requestId)
            && now < put.at + ClampTtl(put.payload, put.ttl) as real
            && now < put.at + MAX_TTL as real
            && (Rcode(put.payload) != 0 ==> now < put.at + MAX_NEGATIVE_TTL as real)
  {
    TrackedOverHistory(maxEntries, ops, now);
    var slots := Entries(maxEntries, ops);
    var s := Find(slots, key).value;
    var p :| 0 <= p < |slots| && slots[p] == s;
    var put := ops[LastPut(ops, key).value];
    StampIsOpaque(put.payload, 0, requestId);
  }

  /** The cache never outgrows its bound, and loses an answer that is still alive only to a
      clear or to `maxEntries` distinct other keys put after it. */
  lemma LostOnlyToNewerKeys(maxEntries: nat, ops: seq<Op>, key: Key, requestId: int, now: real)
    requires Clocked(ops, now)
    ensures |Entries(maxEntries, ops)| <= maxEntries
    ensures LastPut(ops, key).Some?
            && now < Expiry(ops[LastPut(ops, key).value])
            && Answer(Entries(maxEntries, ops), key, requestId, now).None?
            ==> key !in PutSince(ops, LastPut(ops, key).value)
                && |PutSince(ops, LastPut(ops, key).value)| >= maxEntries
  {
    TrackedOverHistory(maxEntries, ops, now);
    if LastPut(ops, key).Some? {
      NoPutSinceTheLast(ops, key);
      var slots := Entries(maxEntries, ops);
      if Find(slots, key).Some? {
        var p :| 0 <= p < |slots| && slots[p] == Find(slots, key).value;
        assert slots[p].expiresAt == Expiry(ops[LastPut(ops, key).value]);
      }
    }
  }

  lemma {:induction false} NoPutSinceTheLast(ops: seq<Op>, key: Key)
    requires LastPut(ops, key).Some?
    ensures key !in PutSince(ops, LastPut(ops, key).value)
    ensures forall j :: LastPut(ops, key).value < j < |ops| ==> !ops[j].Clear?
  {
    var n := |ops| - 1;
    if LastPut(ops, key).value != n {
      NoPutSinceTheLast(ops[..n], key);
      forall j | LastPut(ops, key).value < j < |ops|
        ensures !ops[j].Clear? && !(ops[j].Put? && ops[j].key == key)
      {
        if j < n {
          assert ops[j] == ops[..n][j];
          if ops[j].Put? { assert ops[j].key in PutSince(ops[..n], LastPut(ops, key).value); }
        }
      }
    }
  }
}
