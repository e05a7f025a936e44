/** Which servers a flight asked, and what the cold marks remember. */
module Failover {
  import opened Prelude
  import opened Wire
  import opened Zones
  import opened Queries
  import opened Upstreams
  import Cache

  /** The completed exchanges of one flight. */
  function Log(exchanges: seq<Exchange>, i: nat): seq<Exchange> {
    if exchanges == [] then []
    else
      var last := exchanges[|exchanges| - 1];
      Log(exchanges[..|exchanges| - 1], i) + if last.task == i then [last] else []
  }

  function LastWith(exchanges: seq<Exchange>, server: string): Option<Exchange> {
    if exchanges == [] then None
    else if exchanges[|exchanges| - 1].server == server then Some(exchanges[|exchanges| - 1])
    else LastWith(exchanges[..|exchanges| - 1], server)
  }

  predicate AllFailed(log: seq<Exchange>) { forall e <- log :: e.answer.None? }

  /** The exchanges asked the servers of the order one after the other. */
  predicate InOrder(log: seq<Exchange>, order: seq<string>) {
    |log| <= |order| && forall j :: 0 <= j < |log| ==> log[j].server == order[j]
  }

  ghost predicate FlightOk(log: seq<Exchange>, t: Task)
    requires t.role.Leader?
  {
    && InOrder(log, t.role.order)
    && match t.role.promise
       case Pending => t.phase.Asking? && t.phase.queue == t.role.order[|log|..] && AllFailed(log)
       case Broken => AllFailed(log) && |log| < |t.role.order|
       case Kept(None) => AllFailed(log) && |log| == |t.role.order|
       case Kept(Some(answer)) =>
         log != [] && log[|log| - 1].answer == Some(answer) && AllFailed(log[..|log| - 1])
  }

  ghost predicate Attributed(s: Sys) {
    forall e <- s.exchanges :: e.task < |s.tasks| && s.tasks[e.task].role.Leader?
  }

  ghost predicate Recorded(s: Sys, i: nat)
    requires i < |s.tasks|
  {
    s.tasks[i].role.Leader? ==> FlightOk(Log(s.exchanges, i), s.tasks[i])
  }

  ghost predicate Flown(s: Sys) {
    Attributed(s) && forall i :: 0 <= i < |s.tasks| ==> Recorded(s, i)
  }

  lemma LogGrows(exchanges: seq<Exchange>, e: Exchange, i: nat)
    ensures Log(exchanges + [e], i) == Log(exchanges, i) + if e.task == i then [e] else []
  {
    assert (exchanges + [e])[..|exchanges|] == exchanges;
  }

  lemma {:induction false} NothingLogged(exchanges: seq<Exchange>, i: nat)
    requires forall e <- exchanges :: e.task != i
    ensures Log(exchanges, i) == []
  {
    if exchanges != [] {
      NothingLogged(exchanges[..|exchanges| - 1], i);
      assert exchanges[|exchanges| - 1] in exchanges;
    }
  }

  lemma AppendFlies(s: Sys, s': Sys, t: Task)
    requires Flown(s) && s'.tasks == s.tasks + [t] && s'.exchanges == s.exchanges
    requires t.role.Leader? ==> FlightOk([], t)
    ensures Flown(s')
  {
    NothingLogged(s.exchanges, |s.tasks|);
    forall i | 0 <= i < |s'.tasks| ensures Recorded(s', i) {
      assert i < |s.tasks| ==> Recorded(s, i);
    }
  }

  lemma EnlistFlies(cfg: Config, s: Sys, action: Action, payload: bytes, viaTcp: bool, id: nat)
    requires Flown(s)
    ensures Flown(Enlist(cfg, s, action, payload, viaTcp, id))
  {
    var s' := Enlist(cfg, s, action, payload, viaTcp, id);
    AppendFlies(s, s', s'.tasks[|s.tasks|]);
  }

  lemma SameFlight(s: Sys, s': Sys, j: nat, more: seq<Exchange>)
    requires j < |s.tasks| && j < |s'.tasks| && Recorded(s, j) && s'.tasks[j] == s.tasks[j]
    requires s'.exchanges == s.exchanges + more && |more| <= 1 && (more != [] ==> more[0].task != j)
    ensures Recorded(s', j)
  {
    if more == [] {
      assert s'.exchanges == s.exchanges;
    } else {
      assert more == [more[0]];
      LogGrows(s.exchanges, more[0], j);
    }
  }

  /** Replacing the query of one flight, with the exchanges it had or one more. */
  lemma UpdateFlies(s: Sys, s': Sys, i: nat, more: seq<Exchange>)
    requires Flown(s) && i < |s.tasks| && s.tasks[i].role.Leader?
    requires |s'.tasks| == |s.tasks| && forall j :: 0 <= j < |s.tasks| && j != i ==> s'.tasks[j] == s.tasks[j]
    requires s'.exchanges == s.exchanges + more && |more| <= 1 && (more != [] ==> more[0].task == i)
    requires s'.tasks[i].role.Leader? && FlightOk(Log(s.exchanges, i) + more, s'.tasks[i])
    ensures Flown(s')
  {
    forall j | 0 <= j < |s'.tasks| && j != i ensures Recorded(s', j) {
      SameFlight(s, s', j, more);
    }
    if more == [] {
      assert s'.exchanges == s.exchanges && Log(s.exchanges, i) + more == Log(s.exchanges, i);
    } else {
      assert more == [more[0]];
      LogGrows(s.exchanges, more[0], i);
    }
    assert Recorded(s', i);
    forall e | e in s'.exchanges ensures e.task < |s'.tasks| && s'.tasks[e.task].role.Leader? {
      assert e in s.exchanges || e in more;
    }
  }

  /** What a final answer does to the flight and to the history. */
  lemma FinalAnswer(cfg: Config, s: Sys, i: nat, answer: bytes)
    requires IsAsking(s, i) && (s.tasks[i].phase.tcp || !IsTruncated(answer))
    ensures var t, s' := s.tasks[i], Answered(cfg, s, i, answer);
            && s'.exchanges == s.exchanges + [Exchange(i, t.phase.queue[0], Some(answer), s.now)]
            && s'.tasks == s.tasks[i := t.(role := t.role.(promise := Kept(Some(answer))),
                                           phase := Replied(ReplyWith(Some(answer), t.payload), false))]
  {
  }

  lemma LandedOk(log: seq<Exchange>, t: Task, t': Task, e: Exchange)
    requires t.role.Leader? && FlightOk(log, t) && t.role.promise.Pending? && t.phase.queue != []
    requires e.server == t.phase.queue[0] && e.answer.Some?
    requires t'.role == t.role.(promise := Kept(e.answer))
    ensures FlightOk(log + [e], t')
  {
    assert (log + [e])[..|log|] == log;
  }

  lemma AnswerFlies(cfg: Config, s: Sys, i: nat, answer: bytes)
    requires Flown(s) && IsAsking(s, i) && s.tasks[i].role.promise.Pending?
    ensures Flown(Answered(cfg, s, i, answer))
  {
    var t := s.tasks[i];
    var log := Log(s.exchanges, i);
    assert Recorded(s, i);
    if t.phase.tcp || !IsTruncated(answer) {
      var e := Exchange(i, t.phase.queue[0], Some(answer), s.now);
      FinalAnswer(cfg, s, i, answer);
      LandedOk(log, t, Answered(cfg, s, i, answer).tasks[i], e);
      UpdateFlies(s, Answered(cfg, s, i, answer), i, [e]);
    } else {
      assert log + [] == log;
      UpdateFlies(s, Answered(cfg, s, i, answer), i, []);
    }
  }

  lemma FailFlies(s: Sys, i: nat)
    requires Flown(s) && IsAsking(s, i) && s.tasks[i].role.promise.Pending?
    ensures Flown(Failed(s, i))
  {
    var t := s.tasks[i];
    var e := Exchange(i, t.phase.queue[0], None, s.now);
    assert Recorded(s, i);
    assert t.phase.queue[1..] == t.role.order[|Log(s.exchanges, i)| + 1..];
    UpdateFlies(s, Failed(s, i), i, [e]);
  }

  /** A leader that is asking has not settled its promise. */
  ghost predicate PendingWhileAsking(s: Sys) {
    forall i :: 0 <= i < |s.tasks| && s.tasks[i].role.Leader? ==>
      (s.tasks[i].phase.Asking? <==> s.tasks[i].role.promise.Pending?)
  }

  lemma BreakFlies(cfg: Config, s: Sys, i: nat)
    requires Flown(s) && PendingWhileAsking(s)
    ensures Flown(Next(cfg, s, Breaks(i)))
  {
    if IsAsking(s, i) {
      assert Recorded(s, i);
      assert Log(s.exchanges, i) + [] == Log(s.exchanges, i);
      UpdateFlies(s, Next(cfg, s, Breaks(i)), i, []);
    } else if IsWaiting(s, i) {
      WaiterFlies(s, Next(cfg, s, Breaks(i)), i);
    }
  }

  lemma WaiterFlies(s: Sys, s': Sys, i: nat)
    requires Flown(s) && IsWaiting(s, i) && s'.exchanges == s.exchanges
    requires |s'.tasks| == |s.tasks| && s'.tasks[i].role == s.tasks[i].role
    requires forall j :: 0 <= j < |s.tasks| && j != i ==> s'.tasks[j] == s.tasks[j]
    ensures Flown(s')
  {
    forall j | 0 <= j < |s'.tasks| ensures Recorded(s', j) {
      assert Recorded(s, j);
    }
  }

  lemma StepFlies(cfg: Config, s: Sys, e: Event)
    requires Flown(s) && PendingWhileAsking(s)
    ensures Flown(Next(cfg, s, e))
  {
    match e
    case Arrive(payload, viaTcp, id) =>
      AsBefore(s, Consulted(cfg, s, payload));
      EnlistFlies(cfg, Consulted(cfg, s, payload), Decision(cfg, s, payload), payload, viaTcp, id);
    case Answers(i, answer) => if IsAsking(s, i) { AnswerFlies(cfg, s, i, answer); }
    case Fails(i) => if IsAsking(s, i) { FailFlies(s, i); }
    case Breaks(i) => BreakFlies(cfg, s, i);
    case Resumes(i) => if IsWaiting(s, i) { WaiterFlies(s, Next(cfg, s, e), i); }
    case Swap(zone) => AsBefore(s, Next(cfg, s, e));
    case Tick(to) => AsBefore(s, Next(cfg, s, e));
  }

  lemma AsBefore(s: Sys, s': Sys)
    requires Flown(s) && s'.tasks == s.tasks && s'.exchanges == s.exchanges
    ensures Flown(s')
  {
    forall j | 0 <= j < |s'.tasks| ensures Recorded(s', j) {
      assert Recorded(s, j);
    }
  }

  lemma EnlistKeepsPending(cfg: Config, s: Sys, action: Action, payload: bytes, viaTcp: bool, id: nat)
    requires PendingWhileAsking(s)
    ensures PendingWhileAsking(Enlist(cfg, s, action, payload, viaTcp, id))
  {
    var s' := Enlist(cfg, s, action, payload, viaTcp, id);
    assert s'.tasks == s.tasks + [s'.tasks[|s.tasks|]];
  }

  lemma StepKeepsPending(cfg: Config, s: Sys, e: Event)
    requires PendingWhileAsking(s)
    ensures PendingWhileAsking(Next(cfg, s, e))
  {
    if e.Arrive? {
      EnlistKeepsPending(cfg, Consulted(cfg, s, e.payload), Decision(cfg, s, e.payload), e.payload, e.viaTcp, e.id);
    }
  }

  lemma {:induction false} RunFlies(cfg: Config, s: Sys, events: seq<Event>)
    requires Flown(s) && PendingWhileAsking(s)
    ensures Flown(Run(cfg, s, events)) && PendingWhileAsking(Run(cfg, s, events))
  {
    if events != [] {
      var before := Run(cfg, s, events[..|events| - 1]);
      RunFlies(cfg, s, events[..|events| - 1]);
      StepFlies(cfg, before, events[|events| - 1]);
      StepKeepsPending(cfg, before, events[|events| - 1]);
    }
  }

  ghost predicate AllListed(cfg: Config, tasks: seq<Task>) {
    forall i :: 0 <= i < |tasks| && tasks[i].role.Leader? ==> multiset(tasks[i].role.order) == multiset(cfg.servers)
  }

  lemma EnlistLists(cfg: Config, s: Sys, action: Action, payload: bytes, viaTcp: bool, id: nat)
    requires AllListed(cfg, s.tasks)
    ensures AllListed(cfg, Enlist(cfg, s, action, payload, viaTcp, id).tasks)
  {
    OrderIsStable(cfg.servers, s.cold, s.now);
    var s' := Enlist(cfg, s, action, payload, viaTcp, id);
    AppendLists(cfg, s.tasks, s'.tasks[|s.tasks|]);
  }

  lemma AppendLists(cfg: Config, tasks: seq<Task>, t: Task)
    requires AllListed(cfg, tasks) && (t.role.Leader? ==> multiset(t.role.order) == multiset(cfg.servers))
    ensures AllListed(cfg, tasks + [t])
  {
  }

  /** Only an arrival adds a flight, and no event changes the order of one. */
  lemma OrdersStay(cfg: Config, s: Sys, e: Event)
    requires !e.Arrive?
    ensures var s' := Next(cfg, s, e);
            |s'.tasks| == |s.tasks|
            && forall i :: 0 <= i < |s.tasks| ==>
                 s'.tasks[i].role.Leader? == s.tasks[i].role.Leader?
                 && (s.tasks[i].role.Leader? ==> s'.tasks[i].role.order == s.tasks[i].role.order)
  {
    TasksMove(cfg, s, e);
    var s' := Next(cfg, s, e);
    forall i | 0 <= i < |s.tasks| ensures Moved(s.tasks[i], s'.tasks[i]) {
    }
  }

  lemma {:induction false} RunLists(cfg: Config, s: Sys, events: seq<Event>)
    requires AllListed(cfg, s.tasks)
    ensures AllListed(cfg, Run(cfg, s, events).tasks)
  {
    if events != [] {
      var before, e := Run(cfg, s, events[..|events| - 1]), events[|events| - 1];
      RunLists(cfg, s, events[..|events| - 1]);
      if e.Arrive? {
        EnlistLists(cfg, Consulted(cfg, before, e.payload), Decision(cfg, before, e.payload), e.payload, e.viaTcp, e.id);
      } else {
        OrdersStay(cfg, before, e);
      }
    }
  }

  // ---- cold marks ----

  ghost predicate Marked(cold: map<string, real>, exchanges: seq<Exchange>, server: string) {
    var last := LastWith(exchanges, server);
    && (server in cold <==> last.Some? && last.value.answer.None?)
    && (server in cold ==> cold[server] == last.value.at + COLD_SECONDS)
  }

  lemma ExchangeMarks(cold: map<string, real>, exchanges: seq<Exchange>, e: Exchange, cold': map<string, real>)
    requires forall server :: Marked(cold, exchanges, server)
    requires cold' == if e.answer.Some? then cold - {e.server} else cold[e.server := e.at + COLD_SECONDS]
    ensures forall server :: Marked(cold', exchanges + [e], server)
  {
    assert (exchanges + [e])[..|exchanges|] == exchanges;
    forall server ensures Marked(cold', exchanges + [e], server) {
      assert Marked(cold, exchanges, server);
    }
  }

  lemma AnswerMarks(cfg: Config, s: Sys, i: nat, answer: bytes)
    requires (forall server :: Marked(s.cold, s.exchanges, server)) && IsAsking(s, i)
    ensures var s' := Answered(cfg, s, i, answer); forall server :: Marked(s'.cold, s'.exchanges, server)
  {
    if s.tasks[i].phase.tcp || !IsTruncated(answer) {
      ExchangeMarks(s.cold, s.exchanges, Exchange(i, s.tasks[i].phase.queue[0], Some(answer), s.now),
                    Answered(cfg, s, i, answer).cold);
    }
  }

  lemma FailMarks(s: Sys, i: nat)
    requires (forall server :: Marked(s.cold, s.exchanges, server)) && IsAsking(s, i)
    ensures forall server :: Marked(Failed(s, i).cold, Failed(s, i).exchanges, server)
  {
    ExchangeMarks(s.cold, s.exchanges, Exchange(i, s.tasks[i].phase.queue[0], None, s.now), Failed(s, i).cold);
  }

  lemma StepMarks(cfg: Config, s: Sys, e: Event)
    requires (forall server :: Marked(s.cold, s.exchanges, server)) && s.now >= 0.0
    ensures var s' := Next(cfg, s, e); s'.now >= 0.0 && forall server :: Marked(s'.cold, s'.exchanges, server)
  {
    if e.Answers? && IsAsking(s, e.task) {
      AnswerMarks(cfg, s, e.task, e.answer);
    } else if e.Fails? && IsAsking(s, e.task) {
      FailMarks(s, e.task);
    } else {
      NoExchange(cfg, s, e);
    }
  }

  lemma NoExchange(cfg: Config, s: Sys, e: Event)
    requires (e.Answers? || e.Fails?) ==> !IsAsking(s, e.task)
    ensures Next(cfg, s, e).cold == s.cold && Next(cfg, s, e).exchanges == s.exchanges && Next(cfg, s, e).now >= s.now
  {
    if e.Arrive? {
      EnlistFrame(cfg, Consulted(cfg, s, e.payload), Decision(cfg, s, e.payload), e.payload, e.viaTcp, e.id);
    }
  }

  lemma {:induction false} RunMarks(cfg: Config, s: Sys, events: seq<Event>)
    requires forall server :: Marked(s.cold, s.exchanges, server)
    requires s.now >= 0.0
    ensures var s' := Run(cfg, s, events); s'.now >= 0.0 && forall server :: Marked(s'.cold, s'.exchanges, server)
  {
    if events != [] {
      RunMarks(cfg, s, events[..|events| - 1]);
      StepMarks(cfg, Run(cfg, s, events[..|events| - 1]), events[|events| - 1]);
    }
  }

  /** A server is passed over exactly while its last completed exchange is a failure less than
      thirty seconds old, whichever query that exchange belonged to. */
  lemma ColdExactly(cfg: Config, zone: Zone, now: real, events: seq<Event>, server: string)
    requires now >= 0.0
    ensures var s := Run(cfg, Start(zone, now), events);
            var last := LastWith(s.exchanges, server);
            IsCold(s.cold, server, s.now) <==>
            last.Some? && last.value.answer.None? && s.now < last.value.at + COLD_SECONDS
  {
    RunMarks(cfg, Start(zone, now), events);
    var s := Run(cfg, Start(zone, now), events);
    assert Marked(s.cold, s.exchanges, server);
  }

  // ---- the order a flight took off with ----

  /** The last completed exchange with the server is a failure less than thirty seconds old. */
  predicate Chilled(exchanges: seq<Exchange>, server: string, at: real) {
    var last := LastWith(exchanges, server);
    last.Some? && last.value.answer.None? && at < last.value.at + COLD_SECONDS
  }

  function OfClass(servers: seq<string>, exchanges: seq<Exchange>, at: real, chilled: bool): seq<string> {
    if servers == [] then []
    else
      var rest := OfClass(servers[1..], exchanges, at, chilled);
      if Chilled(exchanges, servers[0], at) == chilled then [servers[0]] + rest else rest
  }

  /** `order` lists every server as often as `servers` does, those that failed lately after all
      the others, and within each class in the order of `servers`. */
  ghost predicate StableSplit(servers: seq<string>, exchanges: seq<Exchange>, at: real, order: seq<string>) {
    && multiset(order) == multiset(servers)
    && (forall j, k :: 0 <= j < k < |order| && Chilled(exchanges, order[j], at) ==> Chilled(exchanges, order[k], at))
    && (forall chilled :: OfClass(order, exchanges, at, chilled) == OfClass(servers, exchanges, at, chilled))
  }

  /** The first `n` exchanges are those before query `i` took off, and its order is the stable
      split they call for. */
  ghost predicate TookOffAfter(cfg: Config, exchanges: seq<Exchange>, i: nat, t: Task, n: nat)
    requires t.role.Leader? && n <= |exchanges|
  {
    && (forall k :: 0 <= k < n ==> exchanges[k].task != i && exchanges[k].at <= t.at)
    && (forall k :: n <= k < |exchanges| ==> exchanges[k].at >= t.at)
    && StableSplit(cfg.servers, exchanges[..n], t.at, t.role.order)
  }

  ghost predicate TookOff(cfg: Config, exchanges: seq<Exchange>, i: nat, t: Task)
    requires t.role.Leader?
  {
    exists n: nat :: n <= |exchanges| && TookOffAfter(cfg, exchanges, i, t, n)
  }

  /** Nothing is later than now. */
  ghost predicate Timely(s: Sys) {
    s.now >= 0.0 && (forall e <- s.exchanges :: e.at <= s.now) && (forall t <- s.tasks :: t.at <= s.now)
  }

  ghost predicate AllTookOff(cfg: Config, s: Sys) {
    && Timely(s) && Attributed(s)
    && (forall server :: Marked(s.cold, s.exchanges, server))
    && forall i :: 0 <= i < |s.tasks| && s.tasks[i].role.Leader? ==> TookOff(cfg, s.exchanges, i, s.tasks[i])
  }

  lemma {:induction false} ClassIsSelected(servers: seq<string>, cold: map<string, real>, exchanges: seq<Exchange>, at: real,
                                           chilled: bool)
    requires forall server :: IsCold(cold, server, at) == Chilled(exchanges, server, at)
    ensures OfClass(servers, exchanges, at, chilled) == Select(servers, cold, at, chilled)
  {
    if servers != [] {
      ClassIsSelected(servers[1..], cold, exchanges, at, chilled);
    }
  }

  /** The cold marks say what the exchanges say, so the order made from them is the split. */
  lemma OrderIsTheSplit(servers: seq<string>, cold: map<string, real>, exchanges: seq<Exchange>, at: real)
    requires at >= 0.0 && forall server :: Marked(cold, exchanges, server)
    ensures StableSplit(servers, exchanges, at, Order(servers, cold, at))
  {
    forall server ensures IsCold(cold, server, at) == Chilled(exchanges, server, at) {
      assert Marked(cold, exchanges, server);
    }
    var order := Order(servers, cold, at);
    OrderIsStable(servers, cold, at);
    forall chilled ensures OfClass(order, exchanges, at, chilled) == OfClass(servers, exchanges, at, chilled) {
      ClassIsSelected(order, cold, exchanges, at, chilled);
      ClassIsSelected(servers, cold, exchanges, at, chilled);
    }
  }

  lemma NewFlightTookOff(cfg: Config, s: Sys, t: Task)
    requires AllTookOff(cfg, s) && t.role.Leader? && t.at == s.now && t.role.order == Order(cfg.servers, s.cold, s.now)
    ensures TookOff(cfg, s.exchanges, |s.tasks|, t)
  {
    OrderIsTheSplit(cfg.servers, s.cold, s.exchanges, s.now);
    WholePrefix(s.exchanges);
    var n := |s.exchanges|;
    forall k | 0 <= k < n ensures s.exchanges[k].task != |s.tasks| && s.exchanges[k].at <= t.at {
      assert s.exchanges[k] in s.exchanges;
    }
    assert TookOffAfter(cfg, s.exchanges, |s.tasks|, t, n);
  }

  /** Later exchanges do not touch what came before the take-off. */
  lemma StillTookOff(cfg: Config, exchanges: seq<Exchange>, exchanges': seq<Exchange>, i: nat, t: Task, t': Task, now: real)
    requires t.role.Leader? && TookOff(cfg, exchanges, i, t) && Moved(t, t') && t.at <= now
    requires exchanges <= exchanges' && forall k :: |exchanges| <= k < |exchanges'| ==> exchanges'[k].at == now
    ensures TookOff(cfg, exchanges', i, t')
  {
    var n: nat :| n <= |exchanges| && TookOffAfter(cfg, exchanges, i, t, n);
    assert exchanges'[..n] == exchanges[..n];
    assert forall k :: 0 <= k < |exchanges| ==> exchanges'[k] == exchanges[k];
    assert TookOffAfter(cfg, exchanges', i, t', n);
  }

  lemma EnlistedTask(cfg: Config, s: Sys, action: Action, payload: bytes, viaTcp: bool, id: nat)
    ensures var s' := Enlist(cfg, s, action, payload, viaTcp, id);
            && |s'.tasks| == |s.tasks| + 1
            && var t := s'.tasks[|s.tasks|];
               t.at == s.now && (t.role.Leader? ==> t.role.order == Order(cfg.servers, s.cold, s.now))
  {
  }

  lemma AppendTakesOff(cfg: Config, s: Sys, s': Sys, t: Task)
    requires AllTookOff(cfg, s) && s'.tasks == s.tasks + [t] && t.at == s.now
    requires s'.cold == s.cold && s'.exchanges == s.exchanges && s'.now == s.now
    requires t.role.Leader? ==> TookOff(cfg, s.exchanges, |s.tasks|, t)
    ensures AllTookOff(cfg, s')
  {
  }

  lemma EnlistTakesOff(cfg: Config, s: Sys, action: Action, payload: bytes, viaTcp: bool, id: nat)
    requires AllTookOff(cfg, s)
    ensures AllTookOff(cfg, Enlist(cfg, s, action, payload, viaTcp, id))
  {
    EnlistFrame(cfg, s, action, payload, viaTcp, id);
    EnlistedTask(cfg, s, action, payload, viaTcp, id);
    var s' := Enlist(cfg, s, action, payload, viaTcp, id);
    var t := s'.tasks[|s.tasks|];
    if t.role.Leader? {
      NewFlightTookOff(cfg, s, t);
    }
    AppendTakesOff(cfg, s, s', t);
  }

  /** Exchanges are completed at the time of the event. */
  lemma ExchangesAreTimed(cfg: Config, s: Sys, e: Event)
    requires !e.Arrive?
    ensures var s' := Next(cfg, s, e);
            && s.now <= s'.now && |s.exchanges| <= |s'.exchanges|
            && forall k :: |s.exchanges| <= k < |s'.exchanges| ==>
                 s'.exchanges[k].at == s.now && s'.exchanges[k].task < |s.tasks| && s.tasks[s'.exchanges[k].task].role.Leader?
  {
    if e.Answers? && IsAsking(s, e.task) && (s.tasks[e.task].phase.tcp || !IsTruncated(e.answer)) {
      FinalAnswer(cfg, s, e.task, e.answer);
    }
  }

  lemma EventKeepsTimes(cfg: Config, s: Sys, e: Event)
    requires !e.Arrive? && Timely(s) && Attributed(s)
    ensures Timely(Next(cfg, s, e)) && Attributed(Next(cfg, s, e))
  {
    TasksMove(cfg, s, e);
    ExchangesAreTimed(cfg, s, e);
    var s' := Next(cfg, s, e);
    assert forall i :: 0 <= i < |s.tasks| ==> Moved(s.tasks[i], s'.tasks[i]);
    forall x | x in s'.exchanges ensures x.at <= s'.now && x.task < |s'.tasks| && s'.tasks[x.task].role.Leader? {
      var k := PlaceOf(s'.exchanges, x);
      if k < |s.exchanges| {
        assert x == s.exchanges[k] && x in s.exchanges;
      }
      assert Moved(s.tasks[x.task], s'.tasks[x.task]);
    }
    forall t | t in s'.tasks ensures t.at <= s'.now {
      var k := PlaceOf(s'.tasks, t);
      assert s.tasks[k] in s.tasks;
    }
  }

  lemma EventKeepsTakeOffs(cfg: Config, s: Sys, e: Event)
    requires !e.Arrive? && AllTookOff(cfg, s)
    ensures AllTookOff(cfg, Next(cfg, s, e))
  {
    TasksMove(cfg, s, e);
    ExchangesAreTimed(cfg, s, e);
    EventKeepsTimes(cfg, s, e);
    StepMarks(cfg, s, e);
    var s' := Next(cfg, s, e);
    forall i | 0 <= i < |s'.tasks| && s'.tasks[i].role.Leader? ensures TookOff(cfg, s'.exchanges, i, s'.tasks[i]) {
      assert Moved(s.tasks[i], s'.tasks[i]) && s.tasks[i] in s.tasks;
      StillTookOff(cfg, s.exchanges, s'.exchanges, i, s.tasks[i], s'.tasks[i], s.now);
    }
  }

  lemma {:induction false} RunTakesOff(cfg: Config, s: Sys, events: seq<Event>)
    requires AllTookOff(cfg, s)
    ensures AllTookOff(cfg, Run(cfg, s, events))
  {
    if events != [] {
      var before, e := Run(cfg, s, events[..|events| - 1]), events[|events| - 1];
      RunTakesOff(cfg, s, events[..|events| - 1]);
      if e.Arrive? {
        ConsultKeepsTakeOffs(cfg, before, e.payload);
        EnlistTakesOff(cfg, Consulted(cfg, before, e.payload), Decision(cfg, before, e.payload), e.payload, e.viaTcp, e.id);
      } else {
        EventKeepsTakeOffs(cfg, before, e);
      }
    }
  }

  lemma ConsultKeepsTakeOffs(cfg: Config, s: Sys, payload: bytes)
    requires AllTookOff(cfg, s)
    ensures AllTookOff(cfg, Consulted(cfg, s, payload))
  {
  }

  // ---- the history of a flight ----

  /** Every flight asks a prefix of the stable warm-then-cold split of the configured servers that
      the exchanges before it took off call for, passes each one over only after it failed, and
      brings nothing home only when all of them failed. */
  lemma FailoverHistory(cfg: Config, zone: Zone, now: real, events: seq<Event>, i: nat)
    requires var s := Run(cfg, Start(zone, now), events); i < |s.tasks| && s.tasks[i].role.Leader?
    ensures var s := Run(cfg, Start(zone, now), events);
            var order := s.tasks[i].role.order;
            var log := Log(s.exchanges, i);
            && multiset(order) == multiset(cfg.servers)
            && InOrder(log, order)
            && (forall j :: 0 <= j < |log| && j < |log| - 1 ==> log[j].answer.None?)
            && (s.tasks[i].role.promise == Kept(None) ==> |log| == |order| && AllFailed(log))
            && (s.tasks[i].role.promise.Kept? && s.tasks[i].role.promise.answer.Some? ==>
                  log != [] && log[|log| - 1].answer == s.tasks[i].role.promise.answer)
            && (s.tasks[i].phase.Asking? ==> AllFailed(log) && s.tasks[i].phase.queue == order[|log|..])
            && (now >= 0.0 ==> TookOff(cfg, s.exchanges, i, s.tasks[i]))
  {
    if now >= 0.0 {
      RunTakesOff(cfg, Start(zone, now), events);
    }
    RunFlies(cfg, Start(zone, now), events);
    RunLists(cfg, Start(zone, now), events);
    var s := Run(cfg, Start(zone, now), events);
    var log := Log(s.exchanges, i);
    assert Recorded(s, i);
    forall j | 0 <= j < |log| - 1 ensures log[j].answer.None? {
      assert log[j] in log && log[j] == log[..|log| - 1][j];
    }
  }
}
