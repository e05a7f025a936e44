/** The resolver's objects. Each method is what runs between two awaits, and each is one event
    of the loop of `Upstreams`. */
module Servers {
  import opened Prelude
  import opened Wire
  import opened Names
  import opened Zones
  import opened Queries
  import opened Upstreams
  import SingleFlight
  import Coherence
  import Cache
  import CacheHistory

  class Upstream {
    const servers: seq<string>
    const cache: Cache.Cache
    var cold: map<string, real>
    var inflight: map<Cache.Key, nat>

    constructor (servers: seq<string>, cache: Cache.Cache)
      ensures this.servers == servers && this.cache == cache && cold == map[] && inflight == map[]
    {
      this.servers := servers;
      this.cache := cache;
      cold := map[];
      inflight := map[];
    }

    method MarkCold(server: string, now: real)
      modifies this`cold
      ensures IsCold(cold, server, now) <== now >= 0.0
      ensures cold == old(cold)[server := now + COLD_SECONDS]
    {
      cold := cold[server := now + COLD_SECONDS];
    }

    method MarkWarm(server: string, now: real)
      modifies this`cold
      ensures now >= 0.0 ==> !IsCold(cold, server, now)
      ensures cold == old(cold) - {server}
    {
      cold := cold - {server};
    }

    /** The first segment of a forwarded query, up to its first await: join the flight of its
        key, or take off as query number `task`. */
    method Resolve(payload: bytes, key: Cache.Key, viaTcp: bool, id: nat, task: nat, now: real)
      returns (role: Role, phase: Phase)
      modifies this`inflight
      ensures key in old(inflight) ==> role == Joiner(key, old(inflight)[key]) && phase == Waiting && inflight == old(inflight)
      ensures key !in old(inflight) ==>
                var order := Order(servers, cold, now);
                && role == Leader(key, WithTxid(payload, id), order, if order == [] then Kept(None) else Pending)
                && phase == (if order == [] then Replied(ServFail, false) else Asking(order, viaTcp))
                && inflight == if order == [] then old(inflight) else old(inflight)[key := task]
    {
      if key in inflight {
        return Joiner(key, inflight[key]), Waiting;
      }
      inflight := inflight[key := task];
      var order := Order(servers, cold, now);
      if order == [] {
        assert old(inflight)[key := task] - {key} == old(inflight);
        inflight := inflight - {key};
        return Leader(key, WithTxid(payload, id), order, Kept(None)), Replied(ServFail, false);
      }
      return Leader(key, WithTxid(payload, id), order, Pending), Asking(order, viaTcp);
    }

    /** The last segment of a flight that brought `answer` home. */
    method Finish(key: Cache.Key, answer: Option<bytes>, ttl: int, now: real)
      modifies this`inflight, cache
      ensures inflight == old(inflight) - {key}
      ensures cache.entries == if answer.Some? && answer.value != []
                               then Cache.AfterPut(cache.maxEntries, old(cache.entries), key, answer.value, ttl, now)
                               else old(cache.entries)
    {
      if answer.Some? && answer.value != [] {
        cache.Put(key, answer.value, ttl, now);
      }
      inflight := inflight - {key};
    }
  }

  class Resolver {
    const cfg: Config
    const cache: Cache.Cache
    const upstream: Upstream
    var zone: Zone
    var tasks: seq<Task>               // the suspended and ended handlers
    var queries: nat
    var answeredLocally: nat
    var forwarded: nat

    ghost const origin: Sys
    ghost var events: seq<Event>       // history
    ghost var now: real
    ghost var exchanges: seq<Exchange>
    ghost var ops: seq<CacheHistory.Op>

    constructor (cfg: Config, zone: Zone, ghost now: real)
      ensures this.cfg == cfg && Valid() && fresh(cache) && fresh(upstream)
      ensures State() == Start(zone, now) == origin
    {
      var cache := new Cache.Cache(cfg.maxEntries);
      this.cfg := cfg;
      this.cache := cache;
      this.upstream := new Upstream(cfg.servers, cache);
      this.zone := zone;
      tasks := [];
      queries, answeredLocally, forwarded := 0, 0, 0;
      origin := Start(zone, now);
      events := [];
      this.now := now;
      exchanges := [];
      ops := [];
    }

    ghost function State(): Sys
      reads this, cache, upstream
    {
      Sys(zone, cache.entries, upstream.inflight, upstream.cold, tasks, now, exchanges, ops)
    }

    ghost predicate Wired() {
      upstream.cache == cache && upstream.servers == cfg.servers && cache.maxEntries == cfg.maxEntries
    }

    ghost predicate Valid()
      reads this, cache, upstream
    {
      && Wired()
      && State() == Run(cfg, origin, events)
      && origin == Start(origin.zone, origin.now)
      && queries == answeredLocally + forwarded == |tasks|
    }

    /** Time passed and one event happened. */
    ghost method Did(at: real, e: Event)
      requires at >= now
      modifies this`events
      ensures events == old(events) + [Tick(at), e]
      ensures Run(cfg, origin, events) == Next(cfg, Next(cfg, Run(cfg, origin, old(events)), Tick(at)), e)
    {
      RunInTwo(cfg, origin, events, [Tick(at), e]);
      RunPair(cfg, Run(cfg, origin, events), Tick(at), e);
      events := events + [Tick(at), e];
    }

    /** Decide about one query; the only effect is that of the cache lookup. */
    method DecideOn(payload: bytes, at: real) returns (action: Action)
      modifies cache
      ensures action == Decide(cfg.tx, cfg.dns, payload, zone, old(cache.entries), at, cfg.ttl)
      ensures cache.entries == if Consults(cfg.tx, cfg.dns, payload, zone)
                               then Cache.AfterGet(old(cache.entries), QueryKey(cfg.tx, cfg.dns, payload), at)
                               else old(cache.entries)
    {
      var record := cfg.dns.parse(payload);
      if record.None? { return Local(FormErr); }
      var m := record.value;
      if m.opcode != OPCODE_QUERY { return Local(NotImplemented); }
      if |m.questions| != 1 { return Local(FormErr); }
      if m.questions[0].qclass != CLASS_IN { return Local(Refused); }
      var found := MatchName(cfg.tx, zone, m.questions[0].qname);
      if found.Some? {
        return Local(FromMatch(cfg.dns, found.value, m.questions[0].qtype, cfg.ttl, SerialOf(zone)));
      }
      var cached := cache.Get(KeyOf(cfg.tx, m), Txid(payload), at);
      if cached.Some? { return Local(Bytes(cached.value)); }
      return Forward(KeyOf(cfg.tx, m), Txid(payload));
    }

    method Consult(payload: bytes, at: real) returns (action: Action)
      requires Wired() && at == now
      modifies cache, this`ops
      ensures State() == Consulted(cfg, old(State()), payload)
      ensures action == Decision(cfg, old(State()), payload)
    {
      action := DecideOn(payload, at);
      if Consults(cfg.tx, cfg.dns, payload, zone) {
        ops := ops + [CacheHistory.Get(QueryKey(cfg.tx, cfg.dns, payload), Txid(payload), at)];
      }
    }

    /** Carry out a decision: answer, or start or join a flight. */
    method Launch(action: Action, payload: bytes, viaTcp: bool, id: nat, at: real)
      requires Wired() && at == now
      modifies this`tasks, this`answeredLocally, this`forwarded, upstream`inflight
      ensures State() == Enlist(cfg, old(State()), action, payload, viaTcp, id)
      ensures answeredLocally == old(answeredLocally) + if action.Local? then 1 else 0
      ensures forwarded == old(forwarded) + if action.Forward? then 1 else 0
    {
      match action
      case Local(reply) =>
        answeredLocally := answeredLocally + 1;
        tasks := tasks + [Task(payload, viaTcp, zone, at, Direct, Replied(reply, false))];
      case Forward(key, _) =>
        forwarded := forwarded + 1;
        var role, phase := upstream.Resolve(payload, key, viaTcp, id, |tasks|, at);
        tasks := tasks + [Task(payload, viaTcp, zone, at, role, phase)];
    }

    method TakeUp(payload: bytes, viaTcp: bool, id: nat, at: real)
      requires Wired() && at == now
      modifies this`tasks, this`queries, this`answeredLocally, this`forwarded, this`ops, cache, upstream`inflight
      ensures State() == Next(cfg, old(State()), Arrive(payload, viaTcp, id))
      ensures queries == old(queries) + 1 && |tasks| == |old(tasks)| + 1
      ensures answeredLocally + forwarded == old(answeredLocally + forwarded) + 1
    {
      queries := queries + 1;
      ghost var before := State();
      var action := Consult(payload, at);
      Launch(action, payload, viaTcp, id, at);
      EnlistFrame(cfg, Consulted(cfg, before, payload), action, payload, viaTcp, id);
    }

    /** A query arrives, as query number `|old(tasks)|`. */
    method Handle(payload: bytes, viaTcp: bool, id: nat, at: real)
      requires Valid() && at >= now
      modifies this, cache, upstream
      ensures Valid()
      ensures State() == Next(cfg, Next(cfg, old(State()), Tick(at)), Arrive(payload, viaTcp, id))
      ensures queries == old(queries) + 1
    {
      ghost var ticked := Next(cfg, State(), Tick(at));
      Did(at, Arrive(payload, viaTcp, id));
      now := at;
      assert State() == ticked;
      TakeUp(payload, viaTcp, id, at);
    }

    /** The flight of query `i` is over with this answer. */
    method Deliver(i: nat, answer: bytes, at: real)
      requires Wired() && at == now && IsAsking(State(), i) && (tasks[i].phase.tcp || !IsTruncated(answer))
      modifies this`tasks, this`exchanges, this`ops, upstream, cache
      ensures State() == Answered(cfg, old(State()), i, answer)
    {
      var t := tasks[i];
      var server := t.phase.queue[0];
      upstream.MarkWarm(server, at);
      exchanges := exchanges + [Exchange(i, server, Some(answer), at)];
      if answer != [] {
        ops := ops + [CacheHistory.Put(t.role.key, answer, cfg.dns.minTtl(answer), at)];
      }
      upstream.Finish(t.role.key, Some(answer), cfg.dns.minTtl(answer), at);
      tasks := tasks[i := t.(role := t.role.(promise := Kept(Some(answer))),
                             phase := Replied(ReplyWith(Some(answer), t.payload), false))];
    }

    method ServerAnswers(i: nat, answer: bytes, at: real)
      requires Valid() && at >= now && IsAsking(State(), i)
      modifies this, cache, upstream
      ensures Valid()
      ensures State() == Next(cfg, Next(cfg, old(State()), Tick(at)), Answers(i, answer))
    {
      Did(at, Answers(i, answer));
      now := at;
      var t := tasks[i];
      if !t.phase.tcp && IsTruncated(answer) {
        tasks := tasks[i := t.(phase := Asking(t.phase.queue, true))];
      } else {
        Deliver(i, answer, at);
      }
    }

    /** The server query `i` is asking is marked cold; the next one is asked, if any is left. */
    method PassOver(i: nat, at: real)
      requires Wired() && at == now && IsAsking(State(), i)
      modifies this`tasks, this`exchanges, upstream, cache
      ensures State() == Failed(old(State()), i)
    {
      var t := tasks[i];
      var server := t.phase.queue[0];
      upstream.MarkCold(server, at);
      exchanges := exchanges + [Exchange(i, server, None, at)];
      if |t.phase.queue| > 1 {
        tasks := tasks[i := t.(phase := Asking(t.phase.queue[1..], t.viaTcp))];
      } else {
        upstream.Finish(t.role.key, None, 0, at);
        tasks := tasks[i := t.(role := t.role.(promise := Kept(None)), phase := Replied(ServFail, false))];
      }
    }

    method ServerFails(i: nat, at: real)
      requires Valid() && at >= now && IsAsking(State(), i)
      modifies this, cache, upstream
      ensures Valid()
      ensures State() == Next(cfg, Next(cfg, old(State()), Tick(at)), Fails(i))
    {
      Did(at, Fails(i));
      now := at;
      PassOver(i, at);
    }

    /** Cancelled, or stopped by an error the failover does not catch: a flight breaks its
        promise and answers nobody itself; a waiting query answers SERVFAIL at once. */
    method Break(i: nat, at: real)
      requires Valid() && at >= now && (IsAsking(State(), i) || IsWaiting(State(), i))
      modifies this, upstream
      ensures Valid()
      ensures State() == Next(cfg, Next(cfg, old(State()), Tick(at)), Breaks(i))
    {
      Did(at, Breaks(i));
      now := at;
      var t := tasks[i];
      if t.phase.Asking? {
        tasks := tasks[i := t.(role := t.role.(promise := Broken), phase := Dropped)];
        upstream.inflight := upstream.inflight - {t.role.key};
      } else {
        tasks := tasks[i := t.(phase := Replied(ServFail, true))];
      }
    }

    /** A waiting query wakes up because its flight has landed. */
    method Resume(i: nat, at: real)
      requires Valid() && at >= now && IsWaiting(State(), i)
      requires !tasks[tasks[i].role.leader].role.promise.Pending?
      modifies this
      ensures Valid()
      ensures State() == Next(cfg, Next(cfg, old(State()), Tick(at)), Resumes(i))
      ensures tasks[i].phase.Replied?
    {
      Did(at, Resumes(i));
      now := at;
      var t := tasks[i];
      var promise := tasks[t.role.leader].role.promise;
      var answer := if promise.Kept? then promise.answer else None;
      tasks := tasks[i := t.(phase := Replied(ReplyWith(answer, t.payload), false))];
    }

    method SwapZone(zone: Zone)
      modifies this`zone, this`ops, cache
      ensures State() == Next(cfg, old(State()), Swap(zone)) && tasks == old(tasks)
      ensures queries == old(queries) && answeredLocally == old(answeredLocally) && forwarded == old(forwarded)
    {
      var previous := this.zone;
      this.zone := zone;
      if Namespaces(previous) != Namespaces(zone) {
        cache.Clear();
        ops := ops + [CacheHistory.Clear];
      }
    }

    /** A new zone; the cache goes unless the namespaces are the same. */
    method Apply(zone: Zone, at: real)
      requires Valid() && at >= now
      modifies this, cache
      ensures Valid()
      ensures State() == Next(cfg, Next(cfg, old(State()), Tick(at)), Swap(zone))
    {
      Did(at, Swap(zone));
      now := at;
      SwapZone(zone);
    }

    /** Between any two segments: one flight per key, and every reply from the zone the query
        found or from an upstream answer to the same question. */
    lemma AlwaysCoherent(i: nat)
      requires Valid() && cfg.dns.Lawful() && i < |tasks|
      ensures SingleFlight.OnePerKey(State())
      ensures Matched(cfg.tx, cfg.dns, tasks[i].payload, tasks[i].zone) ==>
                tasks[i].phase.Replied? && !tasks[i].phase.reply.Bytes?
      ensures tasks[i].phase.Replied? && tasks[i].phase.reply.Bytes? ==>
                Consults(cfg.tx, cfg.dns, tasks[i].payload, tasks[i].zone)
                && exists answer, at ::
                     Coherence.UpstreamSaid(cfg, State(), QueryKey(cfg.tx, cfg.dns, tasks[i].payload), answer, at)
                     && SameBeyondId(tasks[i].phase.reply.payload, answer)
    {
      SingleFlight.OneFlightPerKey(cfg, origin.zone, origin.now, events);
      if Matched(cfg.tx, cfg.dns, tasks[i].payload, tasks[i].zone) {
        Coherence.OursFromTheZone(cfg, origin.zone, origin.now, events, i);
      }
      if tasks[i].phase.Replied? && tasks[i].phase.reply.Bytes? {
        Coherence.OthersFromUpstream(cfg, origin.zone, origin.now, events, i);
      }
    }
  }
}
