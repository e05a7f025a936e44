/** What a change of zone leaves in the cache: nothing of before, if the namespaces changed. */
module Swaps {
  import opened Prelude
  import opened Wire
  import opened Zones
  import opened Queries
  import opened Upstreams
  import Cache

  /** Some server said this, but for the id, after the first `n` exchanges. */
  ghost predicate SaidSince(exchanges: seq<Exchange>, n: nat, payload: bytes) {
    exists k :: n <= k < |exchanges| && exchanges[k].answer.Some? && SameBeyondId(payload, exchanges[k].answer.value)
  }

  ghost predicate FromCache(t: Task) { t.role.Direct? && t.phase.Replied? && t.phase.reply.Bytes? }

  /** Nothing in the cache, and nothing answered from it since query `m`, is older than that. */
  ghost predicate Since(s: Sys, n: nat, m: nat) {
    && (forall slot <- s.slots :: SaidSince(s.exchanges, n, slot.payload))
    && (forall i :: m <= i < |s.tasks| && FromCache(s.tasks[i]) ==> SaidSince(s.exchanges, n, s.tasks[i].phase.reply.payload))
  }

  lemma SaidStays(exchanges: seq<Exchange>, more: seq<Exchange>, n: nat, payload: bytes)
    requires SaidSince(exchanges, n, payload)
    ensures SaidSince(exchanges + more, n, payload)
  {
    var k :| n <= k < |exchanges| && exchanges[k].answer.Some? && SameBeyondId(payload, exchanges[k].answer.value);
    assert (exchanges + more)[k] == exchanges[k];
  }

  lemma RestampStays(exchanges: seq<Exchange>, n: nat, payload: bytes, id: int)
    requires SaidSince(exchanges, n, payload)
    ensures SaidSince(exchanges, n, WithTxid(payload, id))
  {
    var k :| n <= k < |exchanges| && exchanges[k].answer.Some? && SameBeyondId(payload, exchanges[k].answer.value);
    assert SameBeyondId(WithTxid(payload, id), exchanges[k].answer.value);
  }

  /** A new query: it may have been answered from the cache. */
  lemma ArriveSince(cfg: Config, s: Sys, payload: bytes, viaTcp: bool, id: nat, n: nat, m: nat)
    requires Since(s, n, m)
    ensures Since(Next(cfg, s, Arrive(payload, viaTcp, id)), n, m)
  {
    var s' := Next(cfg, s, Arrive(payload, viaTcp, id));
    var action := Decision(cfg, s, payload);
    EnlistFrame(cfg, Consulted(cfg, s, payload), action, payload, viaTcp, id);
    if Consults(cfg.tx, cfg.dns, payload, s.zone) {
      var key := QueryKey(cfg.tx, cfg.dns, payload);
      Cache.WithoutMembers(s.slots, key);
      var found := Cache.Find(s.slots, key);
      if found.Some? {
        RestampStays(s.exchanges, n, found.value.payload, Txid(payload));
      }
    }
    forall i | m <= i < |s'.tasks| && FromCache(s'.tasks[i])
      ensures SaidSince(s'.exchanges, n, s'.tasks[i].phase.reply.payload)
    {
      if i == |s.tasks| {
        OnlyTheCacheHasBytes(cfg, s, payload);
      }
    }
  }

  lemma OnlyTheCacheHasBytes(cfg: Config, s: Sys, payload: bytes)
    requires Decision(cfg, s, payload).Local? && Decision(cfg, s, payload).reply.Bytes?
    ensures Consults(cfg.tx, cfg.dns, payload, s.zone)
    ensures var found := Cache.Find(s.slots, QueryKey(cfg.tx, cfg.dns, payload));
            found.Some? && found.value in s.slots
            && Decision(cfg, s, payload).reply.payload == WithTxid(found.value.payload, Txid(payload))
  {
  }

  lemma StoredSince(cfg: Config, slots: seq<Cache.Slot>, key: Cache.Key, answer: bytes, ttl: int, now: real)
    ensures forall slot <- Cache.AfterPut(cfg.maxEntries, slots, key, answer, ttl, now) ::
              slot in slots || slot.payload == WithTxid(answer, 0)
  {
    Cache.WithoutMembers(slots, key);
  }

  lemma AnswerSince(cfg: Config, s: Sys, i: nat, answer: bytes, n: nat, m: nat)
    requires Since(s, n, m) && IsAsking(s, i) && n <= |s.exchanges| && (s.tasks[i].phase.tcp || !IsTruncated(answer))
    ensures Since(Answered(cfg, s, i, answer), n, m)
  {
    var s' := Answered(cfg, s, i, answer);
    var e := Exchange(i, s.tasks[i].phase.queue[0], Some(answer), s.now);
    assert s'.exchanges == s.exchanges + [e];
    StoredSince(cfg, s.slots, s.tasks[i].role.key, answer, cfg.dns.minTtl(answer), s.now);
    forall slot | slot in s'.slots ensures SaidSince(s'.exchanges, n, slot.payload) {
      if slot in s.slots {
        SaidStays(s.exchanges, [e], n, slot.payload);
      } else {
        assert s'.exchanges[|s.exchanges|] == e && SameBeyondId(WithTxid(answer, 0), answer);
      }
    }
    forall j | m <= j < |s'.tasks| && FromCache(s'.tasks[j])
      ensures SaidSince(s'.exchanges, n, s'.tasks[j].phase.reply.payload)
    {
      SaidStays(s.exchanges, [e], n, s.tasks[j].phase.reply.payload);
    }
  }

  lemma FailSince(s: Sys, i: nat, n: nat, m: nat)
    requires Since(s, n, m) && IsAsking(s, i)
    ensures Since(Failed(s, i), n, m)
  {
    var s' := Failed(s, i);
    var e := Exchange(i, s.tasks[i].phase.queue[0], None, s.now);
    assert s'.exchanges == s.exchanges + [e];
    forall slot | slot in s'.slots ensures SaidSince(s'.exchanges, n, slot.payload) {
      SaidStays(s.exchanges, [e], n, slot.payload);
    }
    forall j | m <= j < |s'.tasks| && FromCache(s'.tasks[j])
      ensures SaidSince(s'.exchanges, n, s'.tasks[j].phase.reply.payload)
    {
      SaidStays(s.exchanges, [e], n, s.tasks[j].phase.reply.payload);
    }
  }

  lemma StepSince(cfg: Config, s: Sys, e: Event, n: nat, m: nat)
    requires Since(s, n, m) && n <= |s.exchanges|
    ensures Since(Next(cfg, s, e), n, m) && n <= |Next(cfg, s, e).exchanges|
  {
    if e.Arrive? {
      ArriveSince(cfg, s, e.payload, e.viaTcp, e.id, n, m);
      EnlistFrame(cfg, Consulted(cfg, s, e.payload), Decision(cfg, s, e.payload), e.payload, e.viaTcp, e.id);
    } else {
      TasksMove(cfg, s, e);
      if e.Answers? && IsAsking(s, e.task) && (s.tasks[e.task].phase.tcp || !IsTruncated(e.answer)) {
        AnswerSince(cfg, s, e.task, e.answer, n, m);
      } else if e.Fails? && IsAsking(s, e.task) {
        FailSince(s, e.task, n, m);
      } else {
        QuietSince(cfg, s, e, n, m);
      }
    }
  }

  lemma QuietSince(cfg: Config, s: Sys, e: Event, n: nat, m: nat)
    requires Since(s, n, m) && !e.Arrive? && (e.Fails? ==> !IsAsking(s, e.task))
    requires e.Answers? && IsAsking(s, e.task) ==> !s.tasks[e.task].phase.tcp && IsTruncated(e.answer)
    ensures Since(Next(cfg, s, e), n, m)
  {
    TasksMove(cfg, s, e);
    var s' := Next(cfg, s, e);
    assert s'.exchanges == s.exchanges && forall slot <- s'.slots :: slot in s.slots;
    forall j | m <= j < |s'.tasks| && FromCache(s'.tasks[j])
      ensures SaidSince(s'.exchanges, n, s'.tasks[j].phase.reply.payload)
    {
      assert Moved(s.tasks[j], s'.tasks[j]) && s.tasks[j] == s'.tasks[j];
    }
  }

  lemma {:induction false} RunSince(cfg: Config, s: Sys, events: seq<Event>, n: nat, m: nat)
    requires Since(s, n, m) && n <= |s.exchanges|
    ensures Since(Run(cfg, s, events), n, m) && n <= |Run(cfg, s, events).exchanges|
  {
    if events != [] {
      RunSince(cfg, s, events[..|events| - 1], n, m);
      StepSince(cfg, Run(cfg, s, events[..|events| - 1]), events[|events| - 1], n, m);
    }
  }

  /** From any state: after a swap to a zone with other namespaces, and whatever follows, no new
      query is answered from what a server had said before the swap. */
  lemma OldAnswersAreForgotten(cfg: Config, s: Sys, zone: Zone, later: seq<Event>, i: nat)
    requires Namespaces(zone) != Namespaces(s.zone)
    requires var end := Run(cfg, Next(cfg, s, Swap(zone)), later); |s.tasks| <= i < |end.tasks| && FromCache(end.tasks[i])
    ensures var end := Run(cfg, Next(cfg, s, Swap(zone)), later);
            SaidSince(end.exchanges, |s.exchanges|, end.tasks[i].phase.reply.payload)
  {
    RunSince(cfg, Next(cfg, s, Swap(zone)), later, |s.exchanges|, |s.tasks|);
  }

  lemma NewTask(cfg: Config, s: Sys, action: Action, payload: bytes, viaTcp: bool, id: nat)
    ensures var s' := Enlist(cfg, s, action, payload, viaTcp, id);
            && |s'.tasks| == |s.tasks| + 1 && s.tasks <= s'.tasks
            && var t := s'.tasks[|s.tasks|];
               t.zone == s.zone && t.at == s.now && t.payload == payload && t.viaTcp == viaTcp
  {
  }

  /** A query finds the zone and the time of its arrival. */
  lemma ArrivesNow(cfg: Config, s: Sys, payload: bytes, viaTcp: bool, id: nat)
    ensures var s' := Next(cfg, s, Arrive(payload, viaTcp, id));
            && |s'.tasks| == |s.tasks| + 1 && s.tasks <= s'.tasks
            && var t := s'.tasks[|s.tasks|];
               t.zone == s.zone && t.at == s.now && t.payload == payload && t.viaTcp == viaTcp
  {
    NewTask(cfg, Consulted(cfg, s, payload), Decision(cfg, s, payload), payload, viaTcp, id);
  }

  lemma SwapLeavesTheRest(cfg: Config, s: Sys, zone: Zone)
    ensures var swapped := Next(cfg, s, Swap(zone));
            && swapped.zone == zone && swapped.tasks == s.tasks && swapped.inflight == s.inflight && swapped.cold == s.cold
            && swapped.exchanges == s.exchanges && swapped.now == s.now
            && (swapped.slots == s.slots <==> Namespaces(zone) == Namespaces(s.zone) || s.slots == [])
  {
  }

  /** A swap takes effect with the next query, and no earlier query, flight or mark notices it; the
      cache is kept if and only if the namespaces are the same, or there was nothing in it. */
  lemma SwapTakesEffect(cfg: Config, s: Sys, zone: Zone, payload: bytes, viaTcp: bool, id: nat)
    ensures var swapped := Next(cfg, s, Swap(zone));
            var s' := Next(cfg, swapped, Arrive(payload, viaTcp, id));
            && |s'.tasks| == |s.tasks| + 1 && s'.tasks[|s.tasks|].zone == zone && s'.tasks[|s.tasks|].at == s.now
    ensures var swapped := Next(cfg, s, Swap(zone));
            && swapped.tasks == s.tasks && swapped.inflight == s.inflight && swapped.cold == s.cold
            && swapped.exchanges == s.exchanges && swapped.now == s.now
            && (swapped.slots == s.slots <==> Namespaces(zone) == Namespaces(s.zone) || s.slots == [])
  {
    SwapLeavesTheRest(cfg, s, zone);
    ArrivesNow(cfg, Next(cfg, s, Swap(zone)), payload, viaTcp, id);
  }
}
