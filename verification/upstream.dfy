/** The resolver as one event loop. Everything between two awaits is a single event; events of
    different queries interleave freely. */
module Upstreams {
  import opened Prelude
  import opened Texts
  import opened Wire
  import opened Zones
  import opened Queries
  import Cache
  import CacheHistory

  const COLD_SECONDS := 30.0

  // ---- which server is asked next ----

  predicate IsCold(cold: map<string, real>, server: string, now: real) {
    (if server in cold then cold[server] else 0.0) > now
  }

  /** The servers that are cold, or those that are not, in their own order. */
  function Select(servers: seq<string>, cold: map<string, real>, now: real, chilled: bool): seq<string> {
    if servers == [] then []
    else
      var rest := Select(servers[1..], cold, now, chilled);
      if IsCold(cold, servers[0], now) == chilled then [servers[0]] + rest else rest
  }

  function Order(servers: seq<string>, cold: map<string, real>, now: real): seq<string> {
    Select(servers, cold, now, false) + Select(servers, cold, now, true)
  }

  // ---- the loop ----

  datatype Config = Config(tx: Text, dns: Dns, servers: seq<string>, maxEntries: nat, ttl: int)

  /** The shared future of a flight. */
  datatype Promise = Pending | Kept(answer: Option<bytes>) | Broken

  /** How a query is served: at once, by asking upstream, or by waiting for the flight of
      another query with the same key. */
  datatype Role =
    | Direct
    | Leader(key: Cache.Key, asked: bytes, order: seq<string>, promise: Promise)
    | Joiner(key: Cache.Key, leader: nat)

  /** `queue` are the servers not yet done with, the first being asked now. */
  datatype Phase =
    | Asking(queue: seq<string>, tcp: bool)
    | Waiting
    | Replied(reply: Reply, interrupted: bool)
    | Dropped

  /** `zone` and `at` are the zone and the time the query found on arrival. */
  datatype Task = Task(payload: bytes, viaTcp: bool, zone: Zone, at: real, role: Role, phase: Phase)

  /** A completed exchange with one server; no answer is a failure. */
  datatype Exchange = Exchange(task: nat, server: string, answer: Option<bytes>, at: real)

  /** `tasks` holds every query so far; `exchanges` and `ops` (the calls on the cache) are history. */
  datatype Sys = Sys(zone: Zone, slots: seq<Cache.Slot>, inflight: map<Cache.Key, nat>, cold: map<string, real>,
                     tasks: seq<Task>, now: real, exchanges: seq<Exchange>, ops: seq<CacheHistory.Op>)

  datatype Event =
    | Arrive(payload: bytes, viaTcp: bool, id: nat)   // `id`: the id drawn for the upstream query
    | Answers(task: nat, answer: bytes)               // the server being asked replies
    | Fails(task: nat)                                // it times out or refuses
    | Breaks(task: nat)                               // the handler is cancelled, or an unforeseen error
    | Resumes(task: nat)                              // a waiting query sees the outcome
    | Swap(zone: Zone)
    | Tick(to: real)

  function ReplyWith(answer: Option<bytes>, payload: bytes): Reply {
    if answer.Some? && answer.value != [] then Bytes(WithTxid(answer.value, Txid(payload))) else ServFail
  }

  /** Take off: with no server configured the flight is over at once. */
  function Lead(cfg: Config, s: Sys, payload: bytes, viaTcp: bool, key: Cache.Key, id: nat): Sys {
    var order := Order(cfg.servers, s.cold, s.now);
    var asked := WithTxid(payload, id);
    if order == [] then
      s.(tasks := s.tasks + [Task(payload, viaTcp, s.zone, s.now, Leader(key, asked, [], Kept(None)),
                                  Replied(ServFail, false))])
    else
      s.(tasks := s.tasks + [Task(payload, viaTcp, s.zone, s.now, Leader(key, asked, order, Pending),
                                  Asking(order, viaTcp))],
         inflight := s.inflight[key := |s.tasks|])
  }

  /** The lookup of a query that is not ours. */
  function Consulted(cfg: Config, s: Sys, payload: bytes): Sys {
    if Consults(cfg.tx, cfg.dns, payload, s.zone) then
      var key := QueryKey(cfg.tx, cfg.dns, payload);
      s.(slots := Cache.AfterGet(s.slots, key, s.now), ops := s.ops + [CacheHistory.Get(key, Txid(payload), s.now)])
    else s
  }

  function Enlist(cfg: Config, s: Sys, action: Action, payload: bytes, viaTcp: bool, id: nat): Sys {
    match action
    case Local(reply) =>
      s.(tasks := s.tasks + [Task(payload, viaTcp, s.zone, s.now, Direct, Replied(reply, false))])
    case Forward(key, _) =>
      if key in s.inflight then
        s.(tasks := s.tasks + [Task(payload, viaTcp, s.zone, s.now, Joiner(key, s.inflight[key]), Waiting)])
      else Lead(cfg, s, payload, viaTcp, key, id)
  }

  function Decision(cfg: Config, s: Sys, payload: bytes): Action {
    Decide(cfg.tx, cfg.dns, payload, s.zone, s.slots, s.now, cfg.ttl)
  }

  predicate IsAsking(s: Sys, i: nat) {
    i < |s.tasks| && s.tasks[i].phase.Asking? && s.tasks[i].phase.queue != [] && s.tasks[i].role.Leader?
  }

  predicate IsWaiting(s: Sys, i: nat) {
    i < |s.tasks| && s.tasks[i].phase.Waiting? && s.tasks[i].role.Joiner? && s.tasks[i].role.leader < |s.tasks|
    && s.tasks[s.tasks[i].role.leader].role.Leader?
  }

  /** The flight of query `i` lands: the promise is settled and the key is free again. */
  function Land(s: Sys, i: nat, promise: Promise, phase: Phase): Sys
    requires IsAsking(s, i)
  {
    var t := s.tasks[i];
    s.(tasks := s.tasks[i := t.(role := t.role.(promise := promise), phase := phase)],
       inflight := s.inflight - {t.role.key})
  }

  function Stored(cfg: Config, s: Sys, key: Cache.Key, answer: bytes): Sys {
    if answer == [] then s
    else
      var ttl := cfg.dns.minTtl(answer);
      s.(slots := Cache.AfterPut(cfg.maxEntries, s.slots, key, answer, ttl, s.now),
         ops := s.ops + [CacheHistory.Put(key, answer, ttl, s.now)])
  }

  function Answered(cfg: Config, s: Sys, i: nat, answer: bytes): Sys
    requires IsAsking(s, i)
  {
    var t := s.tasks[i];
    if !t.phase.tcp && IsTruncated(answer) then
      s.(tasks := s.tasks[i := t.(phase := Asking(t.phase.queue, true))])
    else
      var server := t.phase.queue[0];
      var done := s.(cold := s.cold - {server},
                     exchanges := s.exchanges + [Exchange(i, server, Some(answer), s.now)]);
      Land(Stored(cfg, done, t.role.key, answer), i, Kept(Some(answer)),
           Replied(ReplyWith(Some(answer), t.payload), false))
  }

  function Failed(s: Sys, i: nat): Sys
    requires IsAsking(s, i)
  {
    var t := s.tasks[i];
    var server := t.phase.queue[0];
    var done := s.(cold := s.cold[server := s.now + COLD_SECONDS],
                   exchanges := s.exchanges + [Exchange(i, server, None, s.now)]);
    if |t.phase.queue| > 1 then
      done.(tasks := done.tasks[i := t.(phase := Asking(t.phase.queue[1..], t.viaTcp))])
    else Land(done, i, Kept(None), Replied(ServFail, false))
  }

  /** One event; an event that is not possible changes nothing. */
  function Next(cfg: Config, s: Sys, e: Event): Sys {
    match e
    case Arrive(payload, viaTcp, id) =>
      Enlist(cfg, Consulted(cfg, s, payload), Decision(cfg, s, payload), payload, viaTcp, id)
    case Answers(i, answer) => if IsAsking(s, i) then Answered(cfg, s, i, answer) else s
    case Fails(i) => if IsAsking(s, i) then Failed(s, i) else s
    case Breaks(i) =>
      if IsAsking(s, i) then Land(s, i, Broken, Dropped)
      else if IsWaiting(s, i) then s.(tasks := s.tasks[i := s.tasks[i].(phase := Replied(ServFail, true))])
      else s
    case Resumes(i) =>
      if IsWaiting(s, i) then
        var promise := s.tasks[s.tasks[i].role.leader].role.promise;
        if promise.Pending? then s
        else
          var answer := if promise.Kept? then promise.answer else None;
          s.(tasks := s.tasks[i := s.tasks[i].(phase := Replied(ReplyWith(answer, s.tasks[i].payload), false))])
      else s
    case Swap(zone) =>
      if Namespaces(s.zone) != Namespaces(zone) then s.(zone := zone, slots := [], ops := s.ops + [CacheHistory.Clear])
      else s.(zone := zone)
    case Tick(to) => if to >= s.now then s.(now := to) else s
  }

  function Start(zone: Zone, now: real): Sys { Sys(zone, [], map[], map[], [], now, [], []) }

  function Run(cfg: Config, s: Sys, events: seq<Event>): Sys {
    if events == [] then s else Next(cfg, Run(cfg, s, events[..|events| - 1]), events[|events| - 1])
  }

  lemma {:induction false} RunInTwo(cfg: Config, s: Sys, a: seq<Event>, b: seq<Event>)
    ensures Run(cfg, s, a + b) == Run(cfg, Run(cfg, s, a), b)
  {
    if b == [] {
      assert a + b == a;
    } else {
      assert (a + b)[..|a + b| - 1] == a + b[..|b| - 1];
      RunInTwo(cfg, s, a, b[..|b| - 1]);
    }
  }

  lemma RunPair(cfg: Config, s: Sys, a: Event, b: Event)
    ensures Run(cfg, s, [a, b]) == Next(cfg, Next(cfg, s, a), b)
  {
    assert [a, b][..1] == [a] && [a][..0] == [];
    assert Run(cfg, s, [a]) == Next(cfg, s, a);
  }

  /** An arrival adds one query and decides nothing else. */
  lemma EnlistFrame(cfg: Config, s: Sys, action: Action, payload: bytes, viaTcp: bool, id: nat)
    ensures var s' := Enlist(cfg, s, action, payload, viaTcp, id);
            && |s'.tasks| == |s.tasks| + 1 && s.tasks <= s'.tasks
            && s' == s.(tasks := s'.tasks, inflight := s'.inflight)
            && s'.tasks[|s.tasks|].payload == payload
  {
  }

  /** What later events leave alone: everything about a query but its phase and its promise, and
      all of a query answered on arrival. */
  predicate Moved(t: Task, t': Task) {
    && t'.payload == t.payload && t'.viaTcp == t.viaTcp && t'.zone == t.zone && t'.at == t.at
    && match t.role
       case Direct => t' == t
       case Leader(key, asked, order, _) =>
         t'.role.Leader? && t'.role.key == key && t'.role.asked == asked && t'.role.order == order
       case Joiner(_, _) => t'.role == t.role
  }

  predicate AllMoved(tasks: seq<Task>, tasks': seq<Task>) {
    |tasks'| == |tasks| && forall i :: 0 <= i < |tasks| ==> Moved(tasks[i], tasks'[i])
  }

  lemma AnswerMoves(cfg: Config, s: Sys, i: nat, answer: bytes)
    requires IsAsking(s, i)
    ensures AllMoved(s.tasks, Answered(cfg, s, i, answer).tasks) && s.exchanges <= Answered(cfg, s, i, answer).exchanges
  {
  }

  lemma FailMoves(s: Sys, i: nat)
    requires IsAsking(s, i)
    ensures AllMoved(s.tasks, Failed(s, i).tasks) && s.exchanges <= Failed(s, i).exchanges
  {
  }

  lemma TasksMove(cfg: Config, s: Sys, e: Event)
    requires !e.Arrive?
    ensures AllMoved(s.tasks, Next(cfg, s, e).tasks) && s.exchanges <= Next(cfg, s, e).exchanges
  {
    if e.Answers? && IsAsking(s, e.task) {
      AnswerMoves(cfg, s, e.task, e.answer);
    } else if e.Fails? && IsAsking(s, e.task) {
      FailMoves(s, e.task);
    }
  }

  // ---- the order is a stable partition of the servers ----

  lemma {:induction false} SelectIsTheClass(servers: seq<string>, cold: map<string, real>, now: real, chilled: bool)
    ensures forall server <- Select(servers, cold, now, chilled) :: IsCold(cold, server, now) == chilled
  {
    if servers != [] {
      SelectIsTheClass(servers[1..], cold, now, chilled);
    }
  }

  lemma {:induction false} SelectOfClass(servers: seq<string>, cold: map<string, real>, now: real, chilled: bool)
    requires forall server <- servers :: IsCold(cold, server, now) == chilled
    ensures Select(servers, cold, now, chilled) == servers && Select(servers, cold, now, !chilled) == []
  {
    if servers != [] {
      SelectOfClass(servers[1..], cold, now, chilled);
      assert servers == [servers[0]] + servers[1..];
    }
  }

  lemma {:induction false} SelectOfJoin(a: seq<string>, b: seq<string>, cold: map<string, real>, now: real, chilled: bool)
    ensures Select(a + b, cold, now, chilled) == Select(a, cold, now, chilled) + Select(b, cold, now, chilled)
  {
    if a == [] {
      assert a + b == b;
    } else {
      assert (a + b)[1..] == a[1..] + b;
      SelectOfJoin(a[1..], b, cold, now, chilled);
    }
  }

  lemma {:induction false} ClassesMakeUpAll(servers: seq<string>, cold: map<string, real>, now: real)
    ensures multiset(Order(servers, cold, now)) == multiset(servers)
  {
    if servers != [] {
      ClassesMakeUpAll(servers[1..], cold, now);
      assert servers == [servers[0]] + servers[1..];
    }
  }

  /** Every server once for each time it is listed, the warm ones first, and within the warm and
      within the cold ones the configured order. */
  lemma OrderIsStable(servers: seq<string>, cold: map<string, real>, now: real)
    ensures var order := Order(servers, cold, now);
            && multiset(order) == multiset(servers)
            && (forall j, k :: 0 <= j < k < |order| && IsCold(cold, order[j], now) ==> IsCold(cold, order[k], now))
            && (forall chilled :: Select(order, cold, now, chilled) == Select(servers, cold, now, chilled))
  {
    ClassesMakeUpAll(servers, cold, now);
    var warm, chill := Select(servers, cold, now, false), Select(servers, cold, now, true);
    SelectIsTheClass(servers, cold, now, false);
    SelectIsTheClass(servers, cold, now, true);
    SelectOfClass(warm, cold, now, false);
    SelectOfClass(chill, cold, now, true);
    forall chilled ensures Select(warm + chill, cold, now, chilled) == Select(servers, cold, now, chilled) {
      SelectOfJoin(warm, chill, cold, now, chilled);
    }
    var order := Order(servers, cold, now);
    forall k | 0 <= k < |order| ensures IsCold(cold, order[k], now) <==> k >= |warm| {
      assert order[k] in if k < |warm| then warm else chill;
    }
  }
}
