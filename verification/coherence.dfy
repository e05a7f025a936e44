/** The zone, the cache and the flights never contradict each other. */
module Coherence {
  import opened Prelude
  import opened Texts
  import opened Wire
  import opened Zones
  import opened Queries
  import opened Upstreams
  import opened SingleFlight
  import Failover
  import Cache
  import CacheHistory

  /** Some server answered a flight for `key` with these bytes at that time. */
  ghost predicate Fetched(s: Sys, key: Cache.Key, answer: bytes, at: real) {
    exists e :: e in s.exchanges && e.answer == Some(answer) && e.at == at
                && e.task < |s.tasks| && s.tasks[e.task].role.Leader? && s.tasks[e.task].role.key == key
  }

  /** History only grows, and what a query asks for is settled on arrival. */
  ghost predicate Extends(s: Sys, s': Sys) {
    && s.exchanges <= s'.exchanges && |s.tasks| <= |s'.tasks|
    && forall i :: 0 <= i < |s.tasks| ==>
         s.tasks[i].role.Leader? == s'.tasks[i].role.Leader?
         && (s.tasks[i].role.Leader? ==> s.tasks[i].role.key == s'.tasks[i].role.key)
  }

  lemma FetchedStays(s: Sys, s': Sys, key: Cache.Key, answer: bytes, at: real)
    requires Extends(s, s') && Fetched(s, key, answer, at)
    ensures Fetched(s', key, answer, at)
  {
    var e :| e in s.exchanges && e.answer == Some(answer) && e.at == at
             && e.task < |s.tasks| && s.tasks[e.task].role.Leader? && s.tasks[e.task].role.key == key;
    assert e in s'.exchanges;
  }

  lemma NextExtends(cfg: Config, s: Sys, e: Event)
    ensures Extends(s, Next(cfg, s, e))
  {
    if e.Arrive? {
      EnlistFrame(cfg, Consulted(cfg, s, e.payload), Decision(cfg, s, e.payload), e.payload, e.viaTcp, e.id);
    } else {
      TasksMove(cfg, s, e);
      forall i | 0 <= i < |s.tasks| ensures Moved(s.tasks[i], Next(cfg, s, e).tasks[i]) {
      }
    }
  }

  // ---- the cache calls of the loop ----

  ghost predicate CacheOk(cfg: Config, s: Sys) {
    s.slots == CacheHistory.Entries(cfg.maxEntries, s.ops) && CacheHistory.Clocked(s.ops, s.now)
  }

  ghost predicate PutOk(cfg: Config, s: Sys, op: CacheHistory.Op) {
    op.Put? ==> op.payload != [] && op.ttl == cfg.dns.minTtl(op.payload) && Fetched(s, op.key, op.payload, op.at)
  }

  /** Everything ever cached is a non-empty upstream answer for its key. */
  ghost predicate PutsOk(cfg: Config, s: Sys) { forall op <- s.ops :: PutOk(cfg, s, op) }

  lemma CallStays(cfg: Config, s: Sys, s': Sys, op: CacheHistory.Op)
    requires PutOk(cfg, s, op) && Extends(s, s')
    ensures PutOk(cfg, s', op)
  {
    if op.Put? {
      FetchedStays(s, s', op.key, op.payload, op.at);
    }
  }

  lemma CallsStay(cfg: Config, s: Sys, s': Sys)
    requires PutsOk(cfg, s) && Extends(s, s') && s'.ops == s.ops
    ensures PutsOk(cfg, s')
  {
    forall op | op in s'.ops ensures PutOk(cfg, s', op) {
      CallStays(cfg, s, s', op);
    }
  }

  lemma OneMoreCall(cfg: Config, s: Sys, s': Sys, call: CacheHistory.Op)
    requires PutsOk(cfg, s) && Extends(s, s') && s'.ops == s.ops + [call] && PutOk(cfg, s', call)
    ensures PutsOk(cfg, s')
  {
    forall op | op in s'.ops ensures PutOk(cfg, s', op) {
      if op in s.ops {
        CallStays(cfg, s, s', op);
      }
    }
  }

  lemma EntriesGrow(maxEntries: nat, ops: seq<CacheHistory.Op>, call: CacheHistory.Op, now: real, later: real)
    requires CacheHistory.Clocked(ops, now) && now <= later && (!call.Clear? ==> call.at == now)
    ensures CacheHistory.Entries(maxEntries, ops + [call])
            == CacheHistory.Apply(maxEntries, CacheHistory.Entries(maxEntries, ops), call)
    ensures CacheHistory.Clocked(ops + [call], later)
  {
    assert (ops + [call])[..|ops|] == ops;
    ClockMoves(ops, now, later);
  }

  /** One more call on the cache, or none. */
  lemma CacheStep(cfg: Config, s: Sys, s': Sys, more: seq<CacheHistory.Op>)
    requires CacheOk(cfg, s) && PutsOk(cfg, s) && Extends(s, s')
    requires |more| <= 1 && s'.ops == s.ops + more && s.now <= s'.now
    requires more == [] ==> s'.slots == s.slots
    requires more != [] ==> s'.slots == CacheHistory.Apply(cfg.maxEntries, s.slots, more[0])
                            && (!more[0].Clear? ==> more[0].at == s.now) && PutOk(cfg, s', more[0])
    ensures CacheOk(cfg, s') && PutsOk(cfg, s')
  {
    if more == [] {
      assert s'.ops == s.ops;
      ClockMoves(s.ops, s.now, s'.now);
      CallsStay(cfg, s, s');
    } else {
      assert more == [more[0]];
      EntriesGrow(cfg.maxEntries, s.ops, more[0], s.now, s'.now);
      OneMoreCall(cfg, s, s', more[0]);
    }
  }

  lemma {:induction false} ClockMoves(ops: seq<CacheHistory.Op>, now: real, later: real)
    requires CacheHistory.Clocked(ops, now) && now <= later
    ensures CacheHistory.Clocked(ops, later)
  {
    if ops != [] && ops[|ops| - 1].Clear? {
      ClockMoves(ops[..|ops| - 1], now, later);
    }
  }

  lemma ArriveCaches(cfg: Config, s: Sys, payload: bytes, viaTcp: bool, id: nat)
    requires CacheOk(cfg, s) && PutsOk(cfg, s)
    ensures var s' := Next(cfg, s, Arrive(payload, viaTcp, id)); CacheOk(cfg, s') && PutsOk(cfg, s')
  {
    var s1 := Consulted(cfg, s, payload);
    EnlistFrame(cfg, s1, Decision(cfg, s, payload), payload, viaTcp, id);
    NextExtends(cfg, s, Arrive(payload, viaTcp, id));
    var more := s1.ops[|s.ops|..];
    CacheStep(cfg, s, Next(cfg, s, Arrive(payload, viaTcp, id)), more);
  }

  lemma AnswerCaches(cfg: Config, s: Sys, i: nat, answer: bytes)
    requires CacheOk(cfg, s) && PutsOk(cfg, s) && IsAsking(s, i)
    ensures CacheOk(cfg, Answered(cfg, s, i, answer)) && PutsOk(cfg, Answered(cfg, s, i, answer))
  {
    var s' := Answered(cfg, s, i, answer);
    NextExtends(cfg, s, Answers(i, answer));
    if (s.tasks[i].phase.tcp || !IsTruncated(answer)) && answer != [] {
      var key := s.tasks[i].role.key;
      var e := Exchange(i, s.tasks[i].phase.queue[0], Some(answer), s.now);
      assert e in s'.exchanges && s'.tasks[i].role.key == key;
      assert Fetched(s', key, answer, s.now);
      CacheStep(cfg, s, s', [CacheHistory.Put(key, answer, cfg.dns.minTtl(answer), s.now)]);
    } else {
      CacheStep(cfg, s, s', []);
    }
  }

  lemma SwapCaches(cfg: Config, s: Sys, zone: Zone)
    requires CacheOk(cfg, s) && PutsOk(cfg, s)
    ensures CacheOk(cfg, Next(cfg, s, Swap(zone))) && PutsOk(cfg, Next(cfg, s, Swap(zone)))
  {
    CacheStep(cfg, s, Next(cfg, s, Swap(zone)), if Namespaces(s.zone) != Namespaces(zone) then [CacheHistory.Clear] else []);
  }

  lemma StepCaches(cfg: Config, s: Sys, e: Event)
    requires CacheOk(cfg, s) && PutsOk(cfg, s)
    ensures CacheOk(cfg, Next(cfg, s, e)) && PutsOk(cfg, Next(cfg, s, e))
  {
    if e.Arrive? {
      ArriveCaches(cfg, s, e.payload, e.viaTcp, e.id);
    } else if e.Answers? && IsAsking(s, e.task) {
      AnswerCaches(cfg, s, e.task, e.answer);
    } else if e.Swap? {
      SwapCaches(cfg, s, e.zone);
    } else {
      NextExtends(cfg, s, e);
      CacheStep(cfg, s, Next(cfg, s, e), []);
    }
  }

  // ---- what each query is given ----

  /** A reply from the cache: the last bytes fetched for the key, inside their lifetime. */
  ghost predicate FromCache(cfg: Config, s: Sys, t: Task)
    requires Proper(cfg.dns, t.payload) && t.phase.Replied?
  {
    exists answer, at ::
      && Fetched(s, QueryKey(cfg.tx, cfg.dns, t.payload), answer, at)
      && t.phase.reply == Bytes(WithTxid(answer, Txid(t.payload)))
      && at <= t.at < at + Cache.ClampTtl(answer, cfg.dns.minTtl(answer)) as real
  }

  ghost predicate QueryOk(cfg: Config, s: Sys, t: Task) {
    match t.role
    case Direct =>
      t.phase.Replied?
      && (Matched(cfg.tx, cfg.dns, t.payload, t.zone) ==>
            var q := cfg.dns.parse(t.payload).value.questions[0];
            t.phase.reply == FromMatch(cfg.dns, MatchName(cfg.tx, t.zone, q.qname).value, q.qtype, cfg.ttl, SerialOf(t.zone)))
      && (t.phase.reply.Bytes? ==> Consults(cfg.tx, cfg.dns, t.payload, t.zone) && FromCache(cfg, s, t))
    case Leader(key, asked, _, _) =>
      Consults(cfg.tx, cfg.dns, t.payload, t.zone) && key == QueryKey(cfg.tx, cfg.dns, t.payload)
      && exists id :: asked == WithTxid(t.payload, id)
    case Joiner(key, _) =>
      Consults(cfg.tx, cfg.dns, t.payload, t.zone) && key == QueryKey(cfg.tx, cfg.dns, t.payload)
  }

  ghost predicate QueriesOk(cfg: Config, s: Sys) {
    forall i :: 0 <= i < |s.tasks| ==> QueryOk(cfg, s, s.tasks[i])
  }

  /** What is true of a query stays true: only its phase and its promise still move, and those
      of a query answered on arrival do not. */
  lemma QueryStays(cfg: Config, s: Sys, s': Sys, t: Task, t': Task)
    requires QueryOk(cfg, s, t) && Extends(s, s')
    requires Moved(t, t')
    ensures QueryOk(cfg, s', t')
  {
    if t.role.Direct? && t.phase.reply.Bytes? {
      var answer, at :| Fetched(s, QueryKey(cfg.tx, cfg.dns, t.payload), answer, at)
                        && t.phase.reply == Bytes(WithTxid(answer, Txid(t.payload)))
                        && at <= t.at < at + Cache.ClampTtl(answer, cfg.dns.minTtl(answer)) as real;
      FetchedStays(s, s', QueryKey(cfg.tx, cfg.dns, t.payload), answer, at);
    }
  }

  lemma {:induction false} CallsAreNotLater(ops: seq<CacheHistory.Op>, now: real, j: nat)
    requires CacheHistory.Clocked(ops, now) && j < |ops| && !ops[j].Clear?
    ensures ops[j].at <= now
  {
    var n := |ops| - 1;
    if j < n {
      assert ops[j] == ops[..n][j];
      CallsAreNotLater(ops[..n], if ops[n].Clear? then now else ops[n].at, j);
    }
  }

  /** What a lookup finds was fetched for the key and is still alive. */
  lemma HitWasFetched(cfg: Config, s: Sys, key: Cache.Key, id: int) returns (answer: bytes, at: real)
    requires CacheOk(cfg, s) && PutsOk(cfg, s) && Cache.Answer(s.slots, key, id, s.now).Some?
    ensures Fetched(s, key, answer, at) && Cache.Answer(s.slots, key, id, s.now) == Some(WithTxid(answer, id))
    ensures at <= s.now < at + Cache.ClampTtl(answer, cfg.dns.minTtl(answer)) as real
  {
    CacheHistory.HitIsTheLastPut(cfg.maxEntries, s.ops, key, id, s.now);
    var j := CacheHistory.LastPut(s.ops, key).value;
    var put := s.ops[j];
    assert put in s.ops && PutOk(cfg, s, put);
    CallsAreNotLater(s.ops, s.now, j);
    answer, at := put.payload, put.at;
  }

  /** The query just decided is in order. */
  lemma DecidedOk(cfg: Config, s: Sys, s1: Sys, payload: bytes, viaTcp: bool, id: nat)
    requires CacheOk(cfg, s) && PutsOk(cfg, s) && s1 == Consulted(cfg, s, payload)
    ensures var s' := Enlist(cfg, s1, Decision(cfg, s, payload), payload, viaTcp, id);
            QueryOk(cfg, s', s'.tasks[|s.tasks|])
  {
    var action := Decision(cfg, s, payload);
    var s' := Enlist(cfg, s1, action, payload, viaTcp, id);
    EnlistFrame(cfg, s1, action, payload, viaTcp, id);
    ForwardsExactly(cfg.tx, cfg.dns, payload, s.zone, s.slots, s.now, cfg.ttl);
    if action.Local? && action.reply.Bytes? {
      var key := QueryKey(cfg.tx, cfg.dns, payload);
      var answer, at := HitWasFetched(cfg, s, key, Txid(payload));
      FetchedStays(s, s', key, answer, at);
    }
  }

  lemma ArriveDecides(cfg: Config, s: Sys, payload: bytes, viaTcp: bool, id: nat)
    requires QueriesOk(cfg, s) && CacheOk(cfg, s) && PutsOk(cfg, s)
    ensures QueriesOk(cfg, Next(cfg, s, Arrive(payload, viaTcp, id)))
  {
    var s1 := Consulted(cfg, s, payload);
    var s' := Enlist(cfg, s1, Decision(cfg, s, payload), payload, viaTcp, id);
    EnlistFrame(cfg, s1, Decision(cfg, s, payload), payload, viaTcp, id);
    DecidedOk(cfg, s, s1, payload, viaTcp, id);
    forall i | 0 <= i < |s'.tasks| ensures QueryOk(cfg, s', s'.tasks[i]) {
      if i < |s.tasks| {
        QueryStays(cfg, s, s', s.tasks[i], s'.tasks[i]);
      }
    }
  }

  lemma StepQueries(cfg: Config, s: Sys, e: Event)
    requires QueriesOk(cfg, s) && CacheOk(cfg, s) && PutsOk(cfg, s)
    ensures QueriesOk(cfg, Next(cfg, s, e))
  {
    if e.Arrive? {
      ArriveDecides(cfg, s, e.payload, e.viaTcp, e.id);
    } else {
      var s' := Next(cfg, s, e);
      NextExtends(cfg, s, e);
      TasksMove(cfg, s, e);
      forall i | 0 <= i < |s'.tasks| ensures QueryOk(cfg, s', s'.tasks[i]) {
        assert Moved(s.tasks[i], s'.tasks[i]);
        QueryStays(cfg, s, s', s.tasks[i], s'.tasks[i]);
      }
    }
  }

  lemma {:induction false} RunCoheres(cfg: Config, s: Sys, events: seq<Event>)
    requires QueriesOk(cfg, s) && CacheOk(cfg, s) && PutsOk(cfg, s)
    ensures var s' := Run(cfg, s, events); QueriesOk(cfg, s') && CacheOk(cfg, s') && PutsOk(cfg, s')
  {
    if events != [] {
      var before := Run(cfg, s, events[..|events| - 1]);
      RunCoheres(cfg, s, events[..|events| - 1]);
      StepQueries(cfg, before, events[|events| - 1]);
      StepCaches(cfg, before, events[|events| - 1]);
    }
  }

  // ---- the statements over whole runs ----

  /** A query whose name was ours on arrival is answered from that zone, at once, whatever else
      is going on: never from the cache, never from upstream. */
  lemma OursFromTheZone(cfg: Config, zone: Zone, now: real, events: seq<Event>, i: nat)
    requires var s := Run(cfg, Start(zone, now), events);
             i < |s.tasks| && Matched(cfg.tx, cfg.dns, s.tasks[i].payload, s.tasks[i].zone)
    ensures var t := Run(cfg, Start(zone, now), events).tasks[i];
            var q := cfg.dns.parse(t.payload).value.questions[0];
            var found := MatchName(cfg.tx, t.zone, q.qname).value;
            && t.role.Direct? && t.phase.Replied?
            && t.phase.reply == FromMatch(cfg.dns, found, q.qtype, cfg.ttl, SerialOf(t.zone))
            && !t.phase.reply.Bytes?
  {
    RunCoheres(cfg, Start(zone, now), events);
    var s := Run(cfg, Start(zone, now), events);
    assert QueryOk(cfg, s, s.tasks[i]);
  }

  /** An upstream server answered, with these bytes and at that time, a query for this key. */
  ghost predicate UpstreamSaid(cfg: Config, s: Sys, key: Cache.Key, answer: bytes, at: real) {
    exists e :: e in s.exchanges && e.answer == Some(answer) && e.at == at
                && e.task < |s.tasks| && s.tasks[e.task].role.Leader?
                && Proper(cfg.dns, s.tasks[e.task].role.asked)
                && QueryKey(cfg.tx, cfg.dns, s.tasks[e.task].role.asked) == key
  }

  /** An upstream server answered, with these bytes and at that time, a query that asks the same. */
  ghost predicate AnsweredTheSame(cfg: Config, s: Sys, payload: bytes, answer: bytes, at: real)
    requires Proper(cfg.dns, payload)
  {
    exists e :: e in s.exchanges && e.answer == Some(answer) && e.at == at
                && e.task < |s.tasks| && s.tasks[e.task].role.Leader?
                && Proper(cfg.dns, s.tasks[e.task].role.asked)
                && SameQuestion(cfg.tx, cfg.dns, payload, s.tasks[e.task].role.asked)
  }

  lemma SaidIsTheSame(cfg: Config, s: Sys, payload: bytes, answer: bytes, at: real)
    requires Proper(cfg.dns, payload) && UpstreamSaid(cfg, s, QueryKey(cfg.tx, cfg.dns, payload), answer, at)
    ensures AnsweredTheSame(cfg, s, payload, answer, at)
  {
    var e :| e in s.exchanges && e.answer == Some(answer) && e.at == at
             && e.task < |s.tasks| && s.tasks[e.task].role.Leader?
             && Proper(cfg.dns, s.tasks[e.task].role.asked)
             && QueryKey(cfg.tx, cfg.dns, s.tasks[e.task].role.asked) == QueryKey(cfg.tx, cfg.dns, payload);
    SameKeyExactly(cfg.tx, cfg.dns, payload, s.tasks[e.task].role.asked);
  }

  lemma FetchedIsSaid(cfg: Config, s: Sys, key: Cache.Key, answer: bytes, at: real)
    requires cfg.dns.Lawful() && QueriesOk(cfg, s) && Fetched(s, key, answer, at)
    ensures UpstreamSaid(cfg, s, key, answer, at)
  {
    var e :| e in s.exchanges && e.answer == Some(answer) && e.at == at
             && e.task < |s.tasks| && s.tasks[e.task].role.Leader? && s.tasks[e.task].role.key == key;
    var t := s.tasks[e.task];
    assert QueryOk(cfg, s, t);
    var id :| t.role.asked == WithTxid(t.payload, id);
    assert cfg.dns.parse(WithTxid(t.payload, id)) == cfg.dns.parse(t.payload);
  }

  /** What a settled flight brought home was fetched for its key. */
  lemma KeptWasFetched(s: Sys, l: nat) returns (at: real)
    requires Failover.Flown(s) && l < |s.tasks| && s.tasks[l].role.Leader?
    requires s.tasks[l].role.promise.Kept? && s.tasks[l].role.promise.answer.Some?
    ensures Fetched(s, s.tasks[l].role.key, s.tasks[l].role.promise.answer.value, at)
  {
    assert Failover.Recorded(s, l);
    var log := Failover.Log(s.exchanges, l);
    var e := log[|log| - 1];
    LogIsHistory(s.exchanges, l, e);
    at := e.at;
  }

  lemma {:induction false} LogIsHistory(exchanges: seq<Exchange>, l: nat, e: Exchange)
    requires e in Failover.Log(exchanges, l)
    ensures e in exchanges && e.task == l
  {
    var n := |exchanges| - 1;
    if e != exchanges[n] || exchanges[n].task != l {
      LogIsHistory(exchanges[..n], l, e);
    }
  }

  /** Where a relayed or cached reply came from. */
  lemma ReplyWasFetched(cfg: Config, s: Sys, i: nat) returns (answer: bytes, at: real)
    requires QueriesOk(cfg, s) && Flights(s) && Failover.Flown(s)
    requires i < |s.tasks| && s.tasks[i].phase.Replied? && s.tasks[i].phase.reply.Bytes?
    ensures Consults(cfg.tx, cfg.dns, s.tasks[i].payload, s.tasks[i].zone)
    ensures Fetched(s, QueryKey(cfg.tx, cfg.dns, s.tasks[i].payload), answer, at)
    ensures s.tasks[i].phase.reply == Bytes(WithTxid(answer, Txid(s.tasks[i].payload)))
    ensures s.tasks[i].role.Direct? ==>
              at <= s.tasks[i].at < at + Cache.ClampTtl(answer, cfg.dns.minTtl(answer)) as real
  {
    var t := s.tasks[i];
    assert QueryOk(cfg, s, t);
    assert TaskOk(s.tasks, s.inflight, i, t);
    match t.role
    case Direct =>
      answer, at :| Fetched(s, QueryKey(cfg.tx, cfg.dns, t.payload), answer, at)
                    && t.phase.reply == Bytes(WithTxid(answer, Txid(t.payload)))
                    && at <= t.at < at + Cache.ClampTtl(answer, cfg.dns.minTtl(answer)) as real;
    case Leader(_, _, _, promise) =>
      answer := promise.answer.value;
      at := KeptWasFetched(s, i);
    case Joiner(_, l) =>
      assert TaskOk(s.tasks, s.inflight, l, s.tasks[l]);
      answer := s.tasks[l].role.promise.answer.value;
      at := KeptWasFetched(s, l);
  }

  /** Every cached or relayed reply is, but for the client's own id, an answer some upstream
      server gave to a query that asked the same; one from the cache is younger than its clamped
      lifetime; and none of them is for a name that was ours on arrival. */
  lemma OthersFromUpstream(cfg: Config, zone: Zone, now: real, events: seq<Event>, i: nat)
    requires cfg.dns.Lawful()
    requires var s := Run(cfg, Start(zone, now), events);
             i < |s.tasks| && s.tasks[i].phase.Replied? && s.tasks[i].phase.reply.Bytes?
    ensures var s := Run(cfg, Start(zone, now), events);
            var t := s.tasks[i];
            && Consults(cfg.tx, cfg.dns, t.payload, t.zone)
            && exists answer, at ::
                 && UpstreamSaid(cfg, s, QueryKey(cfg.tx, cfg.dns, t.payload), answer, at)
                 && AnsweredTheSame(cfg, s, t.payload, answer, at)
                 && SameBeyondId(t.phase.reply.payload, answer)
                 && t.phase.reply.payload == WithTxid(answer, Txid(t.payload))
                 && (t.role.Direct? ==> at <= t.at < at + Cache.ClampTtl(answer, cfg.dns.minTtl(answer)) as real)
  {
    RunCoheres(cfg, Start(zone, now), events);
    RunKeeps(cfg, Start(zone, now), events);
    Failover.RunFlies(cfg, Start(zone, now), events);
    var s := Run(cfg, Start(zone, now), events);
    var answer, at := ReplyWasFetched(cfg, s, i);
    FetchedIsSaid(cfg, s, QueryKey(cfg.tx, cfg.dns, s.tasks[i].payload), answer, at);
    SaidIsTheSame(cfg, s, s.tasks[i].payload, answer, at);
    StampIsOpaque(answer, Txid(s.tasks[i].payload), 0);
  }
}
