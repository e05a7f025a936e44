/** What a forwarded query is answered, told from the exchanges and not from the code that
    composes the reply. */
module Replies {
  import opened Prelude
  import opened Wire
  import opened Zones
  import opened Queries
  import opened Upstreams
  import opened SingleFlight
  import Failover
  import Coherence
  import Cache
  import CacheHistory

  /** The query whose flight serves query `i`. */
  function FlightOf(s: Sys, i: nat): nat
    requires i < |s.tasks| && !s.tasks[i].role.Direct?
  {
    if s.tasks[i].role.Leader? then i else s.tasks[i].role.leader
  }

  ghost predicate Sound(s: Sys) { Flights(s) && Failover.Flown(s) }

  lemma RunIsSound(cfg: Config, zone: Zone, now: real, events: seq<Event>)
    ensures Sound(Run(cfg, Start(zone, now), events))
  {
    RunKeeps(cfg, Start(zone, now), events);
    Failover.RunFlies(cfg, Start(zone, now), events);
  }

  /** An answer ends the log of its flight, and is what the flight kept. */
  lemma {:induction false} LoggedAnswer(exchanges: seq<Exchange>, e: Exchange)
    requires e in exchanges
    ensures e in Failover.Log(exchanges, e.task)
  {
    var n := |exchanges| - 1;
    if e != exchanges[n] {
      SplitLast(exchanges);
      LoggedAnswer(exchanges[..n], e);
    }
  }

  lemma AnswerIsKept(s: Sys, e: Exchange)
    requires Sound(s) && e in s.exchanges && e.answer.Some?
    ensures e.task < |s.tasks| && s.tasks[e.task].role.Leader? && s.tasks[e.task].role.promise == Kept(e.answer)
  {
    LoggedAnswer(s.exchanges, e);
    assert Failover.Recorded(s, e.task);
    var log := Failover.Log(s.exchanges, e.task);
    if s.tasks[e.task].role.promise.Kept? && log != [] {
      OnlyLastAnswers(log, e);
    }
  }

  lemma OnlyLastAnswers(log: seq<Exchange>, e: Exchange)
    requires e in log && Failover.AllFailed(log[..|log| - 1])
    ensures e.answer.Some? ==> e == log[|log| - 1]
  {
    SplitLast(log);
  }

  ghost predicate Relayed(t: Task, answer: bytes) {
    t.phase == Replied(Bytes(WithTxid(answer, Txid(t.payload))), false)
  }

  /** A query that waited has the answer, gets it when it goes on, or its wait was cut short. */
  ghost predicate WaiterHas(cfg: Config, s: Sys, j: nat, answer: bytes)
    requires j < |s.tasks|
  {
    || Relayed(s.tasks[j], answer)
    || s.tasks[j].phase == Replied(ServFail, true)
    || (IsWaiting(s, j) && RelayedNext(cfg, s, j, answer))
  }

  ghost predicate RelayedNext(cfg: Config, s: Sys, j: nat, answer: bytes)
    requires IsWaiting(s, j)
  {
    Relayed(Next(cfg, s, Resumes(j)).tasks[j], answer)
  }

  /** What every query of a kept flight is given. */
  lemma KeptIsGiven(cfg: Config, s: Sys, l: nat, j: nat)
    requires Sound(s) && l < |s.tasks| && s.tasks[l].role.Leader? && j < |s.tasks|
    requires s.tasks[l].role.promise.Kept? && s.tasks[l].role.promise.answer.Some?
    requires s.tasks[l].role.promise.answer.value != []
    requires !s.tasks[j].role.Direct? && FlightOf(s, j) == l
    ensures var answer := s.tasks[l].role.promise.answer.value;
            if j == l then Relayed(s.tasks[j], answer) else WaiterHas(cfg, s, j, answer)
  {
    assert TaskOk(s.tasks, s.inflight, l, s.tasks[l]);
    assert TaskOk(s.tasks, s.inflight, j, s.tasks[j]);
  }

  /** Over every run: an answer a server gave reaches every client of its flight. The one that
      asked has it, with nothing changed but the id; one that waited has it under its own id, or
      gets it as soon as it goes on, unless its own wait was cut short. */
  lemma AnswersReachTheClients(cfg: Config, zone: Zone, now: real, events: seq<Event>, e: Exchange)
    requires e in Run(cfg, Start(zone, now), events).exchanges && e.answer.Some? && e.answer.value != []
    ensures var s := Run(cfg, Start(zone, now), events);
            && e.task < |s.tasks| && Relayed(s.tasks[e.task], e.answer.value)
            && forall j :: 0 <= j < |s.tasks| && s.tasks[j].role.Joiner? && s.tasks[j].role.leader == e.task ==>
                 WaiterHas(cfg, s, j, e.answer.value)
  {
    var s := Run(cfg, Start(zone, now), events);
    RunIsSound(cfg, zone, now, events);
    AnswerIsKept(s, e);
    KeptIsGiven(cfg, s, e.task, e.task);
    forall j | 0 <= j < |s.tasks| && s.tasks[j].role.Joiner? && s.tasks[j].role.leader == e.task
      ensures WaiterHas(cfg, s, j, e.answer.value)
    {
      KeptIsGiven(cfg, s, e.task, j);
    }
  }

  /** The flight has nothing for its clients. */
  predicate Empty(promise: Promise) {
    match promise
    case Kept(Some(answer)) => answer == []
    case _ => true
  }

  /** Over every run: a forwarded query is answered SERVFAIL if and only if its own wait was cut
      short, or its flight broke, brought nothing or brought an empty answer; otherwise it is
      answered what the flight brought, under its own id. */
  lemma ServFailExactly(cfg: Config, zone: Zone, now: real, events: seq<Event>, i: nat)
    requires var s := Run(cfg, Start(zone, now), events);
             i < |s.tasks| && !s.tasks[i].role.Direct? && s.tasks[i].phase.Replied?
    ensures var s := Run(cfg, Start(zone, now), events);
            var t, l := s.tasks[i], FlightOf(s, i);
            && l < |s.tasks| && s.tasks[l].role.Leader?
            && (s.tasks[l].role.promise.Pending? ==> t.phase.interrupted)
            && (t.phase.reply == ServFail <==> t.phase.interrupted || Empty(s.tasks[l].role.promise))
            && (t.phase.reply != ServFail ==> Relayed(t, s.tasks[l].role.promise.answer.value))
  {
    var s := Run(cfg, Start(zone, now), events);
    RunIsSound(cfg, zone, now, events);
    assert TaskOk(s.tasks, s.inflight, i, s.tasks[i]);
    assert TaskOk(s.tasks, s.inflight, FlightOf(s, i), s.tasks[FlightOf(s, i)]);
  }

  // ---- transports ----

  /** A truncated datagram is no answer: nobody hears of it, and the same server is asked again
      over TCP, where whatever it says is final. */
  lemma TruncatedIsAskedAgain(cfg: Config, s: Sys, i: nat, datagram: bytes, answer: bytes)
    requires IsAsking(s, i) && !s.tasks[i].phase.tcp && IsTruncated(datagram)
    ensures var s' := Next(cfg, s, Answers(i, datagram));
            && s'.exchanges == s.exchanges && s'.slots == s.slots && s'.cold == s.cold && s'.inflight == s.inflight
            && IsAsking(s', i) && s'.tasks[i].phase.queue == s.tasks[i].phase.queue && s'.tasks[i].phase.tcp
            && (forall j :: 0 <= j < |s.tasks| && j != i ==> s'.tasks[j] == s.tasks[j])
            && var e := Exchange(i, s.tasks[i].phase.queue[0], Some(answer), s.now);
               Next(cfg, s', Answers(i, answer)).exchanges == s.exchanges + [e]
  {
  }

  /** An answer over TCP, or one that is not truncated, is final at once. */
  lemma WholeAnswerIsFinal(cfg: Config, s: Sys, i: nat, answer: bytes)
    requires IsAsking(s, i) && (s.tasks[i].phase.tcp || !IsTruncated(answer))
    ensures Next(cfg, s, Answers(i, answer)).exchanges
            == s.exchanges + [Exchange(i, s.tasks[i].phase.queue[0], Some(answer), s.now)]
  {
  }

  /** A flight for a client on TCP asks over TCP only. */
  ghost predicate TcpStays(s: Sys) {
    forall i :: 0 <= i < |s.tasks| && s.tasks[i].phase.Asking? && s.tasks[i].viaTcp ==> s.tasks[i].phase.tcp
  }

  lemma StepTcpStays(cfg: Config, s: Sys, e: Event)
    requires TcpStays(s)
    ensures TcpStays(Next(cfg, s, e))
  {
    if e.Arrive? {
      EnlistTcp(cfg, Consulted(cfg, s, e.payload), Decision(cfg, s, e.payload), e.payload, e.viaTcp, e.id);
    }
  }

  lemma EnlistTcp(cfg: Config, s: Sys, action: Action, payload: bytes, viaTcp: bool, id: nat)
    requires TcpStays(s)
    ensures TcpStays(Enlist(cfg, s, action, payload, viaTcp, id))
    ensures Enlist(cfg, s, action, payload, viaTcp, id).tasks[|s.tasks|].viaTcp == viaTcp
  {
    var s' := Enlist(cfg, s, action, payload, viaTcp, id);
    assert s'.tasks == s.tasks + [s'.tasks[|s.tasks|]];
  }

  lemma {:induction false} RunTcpStays(cfg: Config, s: Sys, events: seq<Event>)
    requires TcpStays(s)
    ensures TcpStays(Run(cfg, s, events))
  {
    if events != [] {
      RunTcpStays(cfg, s, events[..|events| - 1]);
      StepTcpStays(cfg, Run(cfg, s, events[..|events| - 1]), events[|events| - 1]);
    }
  }

  /** A client on TCP is asked for over TCP, over every run; a client on UDP is asked for over
      UDP again whenever a server is passed over. */
  lemma TransportOfTheClient(cfg: Config, zone: Zone, now: real, events: seq<Event>, i: nat)
    requires IsAsking(Run(cfg, Start(zone, now), events), i)
    ensures var s := Run(cfg, Start(zone, now), events);
            var next := Next(cfg, s, Fails(i)).tasks[i].phase;
            && (s.tasks[i].viaTcp ==> s.tasks[i].phase.tcp)
            && (|s.tasks[i].phase.queue| > 1 ==> next == Asking(s.tasks[i].phase.queue[1..], s.tasks[i].viaTcp))
  {
    RunTcpStays(cfg, Start(zone, now), events);
  }

  /** What goes upstream is the client's own message under the id drawn for it: the flight of a new
      leader asks it, and no later event changes it. */
  lemma AskedUnderTheDrawnId(cfg: Config, s: Sys, action: Action, payload: bytes, viaTcp: bool, id: nat)
    ensures var s' := Enlist(cfg, s, action, payload, viaTcp, id);
            && |s'.tasks| == |s.tasks| + 1
            && var t := s'.tasks[|s.tasks|];
               && (action.Local? <==> t.role.Direct?) && (action.Local? ==> t.phase == Replied(action.reply, false))
               && (action.Forward? && action.key in s.inflight <==> t.role.Joiner?)
               && (t.role.Joiner? ==> t.role == Joiner(action.key, s.inflight[action.key]) && t.phase == Waiting)
               && (t.role.Leader? ==>
                     && SameBeyondId(t.role.asked, payload) && (|payload| >= 2 ==> Txid(t.role.asked) == id % 65536)
                     && t.role.key == action.key
                     && (t.phase.Asking? ==> t.phase == Asking(t.role.order, viaTcp)
                                             && IsAsking(s', |s.tasks|) && action.key in s'.inflight))
  {
    StampIsOpaque(payload, id, id);
  }

  // ---- what is cached ----

  /** What the servers said, in order: every answer that is not empty. */
  function Said(cfg: Config, tasks: seq<Task>, exchanges: seq<Exchange>): seq<CacheHistory.Op>
    requires forall e <- exchanges :: e.task < |tasks| && tasks[e.task].role.Leader?
  {
    if exchanges == [] then []
    else
      var e := exchanges[|exchanges| - 1];
      var before := Said(cfg, tasks, exchanges[..|exchanges| - 1]);
      if e.answer.Some? && e.answer.value != []
      then before + [CacheHistory.Put(tasks[e.task].role.key, e.answer.value, cfg.dns.minTtl(e.answer.value), e.at)]
      else before
  }

  /** The calls that store something, in order. */
  function Puts(ops: seq<CacheHistory.Op>): seq<CacheHistory.Op> {
    if ops == [] then []
    else Puts(ops[..|ops| - 1]) + if ops[|ops| - 1].Put? then [ops[|ops| - 1]] else []
  }

  ghost predicate StoredAll(cfg: Config, s: Sys) {
    Failover.Attributed(s) && Puts(s.ops) == Said(cfg, s.tasks, s.exchanges)
  }

  lemma {:induction false} SaidStays(cfg: Config, tasks: seq<Task>, tasks': seq<Task>, exchanges: seq<Exchange>)
    requires forall e <- exchanges :: e.task < |tasks| && tasks[e.task].role.Leader?
    requires |tasks| <= |tasks'|
    requires forall i :: 0 <= i < |tasks| && tasks[i].role.Leader? ==>
               tasks'[i].role.Leader? && tasks'[i].role.key == tasks[i].role.key
    ensures Said(cfg, tasks', exchanges) == Said(cfg, tasks, exchanges)
  {
    if exchanges != [] {
      SaidStays(cfg, tasks, tasks', exchanges[..|exchanges| - 1]);
    }
  }

  lemma PutsGrow(ops: seq<CacheHistory.Op>, op: CacheHistory.Op)
    ensures Puts(ops + [op]) == Puts(ops) + if op.Put? then [op] else []
  {
    assert (ops + [op])[..|ops|] == ops;
  }

  /** A step that stores nothing and completes no exchange. */
  lemma QuietStepKeeps(cfg: Config, s: Sys, s': Sys)
    requires StoredAll(cfg, s) && |s.tasks| <= |s'.tasks|
    requires forall i :: 0 <= i < |s.tasks| && s.tasks[i].role.Leader? ==>
               s'.tasks[i].role.Leader? && s'.tasks[i].role.key == s.tasks[i].role.key
    requires s'.exchanges == s.exchanges && Puts(s'.ops) == Puts(s.ops)
    ensures StoredAll(cfg, s')
  {
    SaidStays(cfg, s.tasks, s'.tasks, s.exchanges);
  }

  lemma ExchangeKeeps(cfg: Config, s: Sys, s': Sys, e: Exchange, more: seq<CacheHistory.Op>)
    requires StoredAll(cfg, s) && |s.tasks| <= |s'.tasks|
    requires forall i :: 0 <= i < |s.tasks| && s.tasks[i].role.Leader? ==>
               s'.tasks[i].role.Leader? && s'.tasks[i].role.key == s.tasks[i].role.key
    requires e.task < |s.tasks| && s.tasks[e.task].role.Leader?
    requires s'.exchanges == s.exchanges + [e] && s'.ops == s.ops + more
    requires more == if e.answer.Some? && e.answer.value != []
                     then [CacheHistory.Put(s.tasks[e.task].role.key, e.answer.value, cfg.dns.minTtl(e.answer.value), e.at)]
                     else []
    ensures StoredAll(cfg, s')
  {
    SaidStays(cfg, s.tasks, s'.tasks, s.exchanges);
    assert s'.exchanges[..|s.exchanges|] == s.exchanges;
    if more == [] {
      assert s'.ops == s.ops;
    } else {
      assert more == [more[0]];
      PutsGrow(s.ops, more[0]);
    }
  }

  lemma AnswerKeepsThem(cfg: Config, s: Sys, i: nat, answer: bytes)
    requires StoredAll(cfg, s) && IsAsking(s, i)
    ensures StoredAll(cfg, Answered(cfg, s, i, answer))
  {
    var t, s' := s.tasks[i], Answered(cfg, s, i, answer);
    if !t.phase.tcp && IsTruncated(answer) {
      QuietStepKeeps(cfg, s, s');
    } else {
      var e := Exchange(i, t.phase.queue[0], Some(answer), s.now);
      var put := CacheHistory.Put(t.role.key, answer, cfg.dns.minTtl(answer), s.now);
      assert s'.ops == s.ops + if answer != [] then [put] else [];
      ExchangeKeeps(cfg, s, s', e, if answer != [] then [put] else []);
    }
  }

  lemma FailKeepsThem(cfg: Config, s: Sys, i: nat)
    requires StoredAll(cfg, s) && IsAsking(s, i)
    ensures StoredAll(cfg, Failed(s, i))
  {
    assert s.ops + [] == s.ops;
    ExchangeKeeps(cfg, s, Failed(s, i), Exchange(i, s.tasks[i].phase.queue[0], None, s.now), []);
  }

  lemma ConsultKeepsThem(cfg: Config, s: Sys, payload: bytes)
    requires StoredAll(cfg, s)
    ensures StoredAll(cfg, Consulted(cfg, s, payload))
  {
    if Consults(cfg.tx, cfg.dns, payload, s.zone) {
      PutsGrow(s.ops, CacheHistory.Get(QueryKey(cfg.tx, cfg.dns, payload), Txid(payload), s.now));
    }
    QuietStepKeeps(cfg, s, Consulted(cfg, s, payload));
  }

  lemma EnlistKeepsThem(cfg: Config, s: Sys, action: Action, payload: bytes, viaTcp: bool, id: nat)
    requires StoredAll(cfg, s)
    ensures StoredAll(cfg, Enlist(cfg, s, action, payload, viaTcp, id))
  {
    EnlistFrame(cfg, s, action, payload, viaTcp, id);
    var s' := Enlist(cfg, s, action, payload, viaTcp, id);
    assert forall i :: 0 <= i < |s.tasks| ==> s'.tasks[i] == s.tasks[i];
    QuietStepKeeps(cfg, s, s');
  }

  lemma ArriveKeepsThem(cfg: Config, s: Sys, payload: bytes, viaTcp: bool, id: nat)
    requires StoredAll(cfg, s)
    ensures StoredAll(cfg, Next(cfg, s, Arrive(payload, viaTcp, id)))
  {
    ConsultKeepsThem(cfg, s, payload);
    EnlistKeepsThem(cfg, Consulted(cfg, s, payload), Decision(cfg, s, payload), payload, viaTcp, id);
  }

  lemma StepKeepsThem(cfg: Config, s: Sys, e: Event)
    requires StoredAll(cfg, s)
    ensures StoredAll(cfg, Next(cfg, s, e))
  {
    if e.Arrive? {
      ArriveKeepsThem(cfg, s, e.payload, e.viaTcp, e.id);
    } else if e.Answers? && IsAsking(s, e.task) {
      AnswerKeepsThem(cfg, s, e.task, e.answer);
    } else if e.Fails? && IsAsking(s, e.task) {
      FailKeepsThem(cfg, s, e.task);
    } else {
      OtherEventsKeepThem(cfg, s, e);
    }
  }

  lemma OtherEventsKeepThem(cfg: Config, s: Sys, e: Event)
    requires StoredAll(cfg, s) && !e.Arrive? && (e.Answers? || e.Fails? ==> !IsAsking(s, e.task))
    ensures StoredAll(cfg, Next(cfg, s, e))
  {
    PutsGrow(s.ops, CacheHistory.Clear);
    TasksMove(cfg, s, e);
    var s' := Next(cfg, s, e);
    forall i | 0 <= i < |s.tasks| && s.tasks[i].role.Leader?
      ensures s'.tasks[i].role.Leader? && s'.tasks[i].role.key == s.tasks[i].role.key
    {
      assert Moved(s.tasks[i], s'.tasks[i]);
    }
    QuietStepKeeps(cfg, s, s');
  }

  lemma {:induction false} RunKeepsThem(cfg: Config, s: Sys, events: seq<Event>)
    requires StoredAll(cfg, s)
    ensures StoredAll(cfg, Run(cfg, s, events))
  {
    if events != [] {
      RunKeepsThem(cfg, s, events[..|events| - 1]);
      StepKeepsThem(cfg, Run(cfg, s, events[..|events| - 1]), events[|events| - 1]);
    }
  }

  /** Over every run: what was stored in the cache is every answer that was not empty, once, in
      the order the servers gave them, under the key of its flight; and the cache holds what those
      calls make of it. */
  lemma EveryAnswerIsStored(cfg: Config, zone: Zone, now: real, events: seq<Event>)
    ensures var s := Run(cfg, Start(zone, now), events);
            && Failover.Attributed(s) && Puts(s.ops) == Said(cfg, s.tasks, s.exchanges)
            && s.slots == CacheHistory.Entries(cfg.maxEntries, s.ops)
  {
    RunKeepsThem(cfg, Start(zone, now), events);
    Coherence.RunCoheres(cfg, Start(zone, now), events);
  }
}
