/** Identical questions in flight share one upstream query. */
module SingleFlight {
  import opened Prelude
  import opened Wire
  import opened Zones
  import opened Queries
  import opened Upstreams
  import Cache

  /** What a settled promise gives the queries that waited on it. */
  function Given(promise: Promise): Option<bytes> {
    if promise.Kept? then promise.answer else None
  }

  ghost predicate LeaderOk(inflight: map<Cache.Key, nat>, i: nat, t: Task)
    requires t.role.Leader?
  {
    match t.phase
    case Asking(queue, _) =>
      queue != [] && t.role.promise.Pending? && t.role.key in inflight && inflight[t.role.key] == i
    case Replied(reply, interrupted) =>
      t.role.promise.Kept? && !interrupted && reply == ReplyWith(t.role.promise.answer, t.payload)
    case Dropped => t.role.promise.Broken?
    case Waiting => false
  }

  ghost predicate JoinerOk(tasks: seq<Task>, i: nat, t: Task)
    requires t.role.Joiner?
  {
    && t.role.leader < i && t.role.leader < |tasks|
    && tasks[t.role.leader].role.Leader? && tasks[t.role.leader].role.key == t.role.key
    && (t.phase.Waiting? || t.phase.Replied?)
    && (t.phase.Replied? && t.phase.interrupted ==> t.phase.reply == ServFail)
    && (t.phase.Replied? && !t.phase.interrupted ==>
          var promise := tasks[t.role.leader].role.promise;
          !promise.Pending? && t.phase.reply == ReplyWith(Given(promise), t.payload))
  }

  ghost predicate TaskOk(tasks: seq<Task>, inflight: map<Cache.Key, nat>, i: nat, t: Task) {
    match t.role
    case Direct => t.phase.Replied?
    case Leader(_, _, _, _) => LeaderOk(inflight, i, t)
    case Joiner(_, _) => JoinerOk(tasks, i, t)
  }

  /** Every entry of the in-flight map belongs to a query that is being asked right now. */
  ghost predicate EntriesLive(s: Sys) {
    forall key <- s.inflight ::
      var l := s.inflight[key];
      l < |s.tasks| && s.tasks[l].role.Leader? && s.tasks[l].role.key == key && s.tasks[l].phase.Asking?
  }

  ghost predicate Flights(s: Sys) {
    EntriesLive(s) && forall i :: 0 <= i < |s.tasks| ==> TaskOk(s.tasks, s.inflight, i, s.tasks[i])
  }

  /** A new query that is in order itself disturbs no other. */
  lemma AppendKeeps(s: Sys, s': Sys, t: Task)
    requires Flights(s) && s'.tasks == s.tasks + [t]
    requires s'.inflight == if t.phase.Asking? && t.role.Leader? then s.inflight[t.role.key := |s.tasks|] else s.inflight
    requires t.phase.Asking? && t.role.Leader? ==> t.role.key !in s.inflight
    requires TaskOk(s'.tasks, s'.inflight, |s.tasks|, t)
    ensures Flights(s')
  {
    forall i | 0 <= i < |s'.tasks| ensures TaskOk(s'.tasks, s'.inflight, i, s'.tasks[i]) {
      if i < |s.tasks| {
        assert TaskOk(s.tasks, s.inflight, i, s.tasks[i]);
      }
    }
    assert EntriesLive(s');
  }

  lemma EnlistKeeps(cfg: Config, s: Sys, action: Action, payload: bytes, viaTcp: bool, id: nat)
    requires Flights(s)
    ensures Flights(Enlist(cfg, s, action, payload, viaTcp, id))
  {
    var s' := Enlist(cfg, s, action, payload, viaTcp, id);
    AppendKeeps(s, s', s'.tasks[|s.tasks|]);
  }

  /** A landing settles one promise and frees one key; nobody had been answered from it. */
  lemma LandKeeps(s: Sys, s': Sys, i: nat, promise: Promise, phase: Phase)
    requires Flights(s) && IsAsking(s, i)
    requires s'.tasks == Land(s, i, promise, phase).tasks && s'.inflight == Land(s, i, promise, phase).inflight
    requires (promise.Broken? && phase.Dropped?)
             || (promise.Kept? && phase == Replied(ReplyWith(promise.answer, s.tasks[i].payload), false))
    ensures Flights(s')
  {
    assert TaskOk(s.tasks, s.inflight, i, s.tasks[i]);
    forall j | 0 <= j < |s'.tasks| ensures TaskOk(s'.tasks, s'.inflight, j, s'.tasks[j]) {
      assert TaskOk(s.tasks, s.inflight, j, s.tasks[j]);
    }
    assert EntriesLive(s');
  }

  /** A flight that goes on: the next server, or the same one over TCP. */
  lemma GoOnKeeps(s: Sys, s': Sys, i: nat, queue: seq<string>, tcp: bool)
    requires Flights(s) && IsAsking(s, i) && queue != []
    requires s'.tasks == s.tasks[i := s.tasks[i].(phase := Asking(queue, tcp))] && s'.inflight == s.inflight
    ensures Flights(s')
  {
    assert TaskOk(s.tasks, s.inflight, i, s.tasks[i]);
    forall j | 0 <= j < |s'.tasks| ensures TaskOk(s'.tasks, s'.inflight, j, s'.tasks[j]) {
      assert TaskOk(s.tasks, s.inflight, j, s.tasks[j]);
    }
    assert EntriesLive(s');
  }

  lemma WakeKeeps(s: Sys, s': Sys, i: nat, phase: Phase)
    requires Flights(s) && IsWaiting(s, i)
    requires s'.tasks == s.tasks[i := s.tasks[i].(phase := phase)] && s'.inflight == s.inflight
    requires var promise := s.tasks[s.tasks[i].role.leader].role.promise;
             phase == Replied(ServFail, true)
             || (!promise.Pending? && phase == Replied(ReplyWith(Given(promise), s.tasks[i].payload), false))
    ensures Flights(s')
  {
    assert TaskOk(s.tasks, s.inflight, i, s.tasks[i]);
    forall j | 0 <= j < |s'.tasks| ensures TaskOk(s'.tasks, s'.inflight, j, s'.tasks[j]) {
      assert TaskOk(s.tasks, s.inflight, j, s.tasks[j]);
    }
    assert EntriesLive(s');
  }

  lemma AnswerKeeps(cfg: Config, s: Sys, i: nat, answer: bytes)
    requires Flights(s) && IsAsking(s, i)
    ensures Flights(Answered(cfg, s, i, answer))
  {
    var t := s.tasks[i];
    if !t.phase.tcp && IsTruncated(answer) {
      GoOnKeeps(s, Answered(cfg, s, i, answer), i, t.phase.queue, true);
    } else {
      LandKeeps(s, Answered(cfg, s, i, answer), i, Kept(Some(answer)),
                Replied(ReplyWith(Some(answer), t.payload), false));
    }
  }

  lemma FailKeeps(s: Sys, i: nat)
    requires Flights(s) && IsAsking(s, i)
    ensures Flights(Failed(s, i))
  {
    var t := s.tasks[i];
    if |t.phase.queue| > 1 {
      GoOnKeeps(s, Failed(s, i), i, t.phase.queue[1..], t.viaTcp);
    } else {
      LandKeeps(s, Failed(s, i), i, Kept(None), Replied(ServFail, false));
    }
  }

  lemma StepKeeps(cfg: Config, s: Sys, e: Event)
    requires Flights(s)
    ensures Flights(Next(cfg, s, e))
  {
    match e
    case Arrive(payload, viaTcp, id) =>
      EnlistKeeps(cfg, Consulted(cfg, s, payload), Decision(cfg, s, payload), payload, viaTcp, id);
    case Answers(i, answer) => if IsAsking(s, i) { AnswerKeeps(cfg, s, i, answer); }
    case Fails(i) => if IsAsking(s, i) { FailKeeps(s, i); }
    case Breaks(i) =>
      if IsAsking(s, i) {
        LandKeeps(s, Next(cfg, s, e), i, Broken, Dropped);
      } else if IsWaiting(s, i) {
        WakeKeeps(s, Next(cfg, s, e), i, Replied(ServFail, true));
      }
    case Resumes(i) =>
      if IsWaiting(s, i) {
        var promise := s.tasks[s.tasks[i].role.leader].role.promise;
        if !promise.Pending? {
          WakeKeeps(s, Next(cfg, s, e), i, Replied(ReplyWith(Given(promise), s.tasks[i].payload), false));
        }
      }
    case Swap(zone) =>
    case Tick(to) =>
  }

  lemma {:induction false} RunKeeps(cfg: Config, s: Sys, events: seq<Event>)
    requires Flights(s)
    ensures Flights(Run(cfg, s, events))
  {
    if events != [] {
      RunKeeps(cfg, s, events[..|events| - 1]);
      StepKeeps(cfg, Run(cfg, s, events[..|events| - 1]), events[|events| - 1]);
    }
  }

  // ---- what follows in every reachable state ----

  ghost predicate OnePerKey(s: Sys) {
    && (forall i: nat :: IsAsking(s, i) <==>
          i < |s.tasks| && s.tasks[i].role.Leader?
          && s.tasks[i].role.key in s.inflight && s.inflight[s.tasks[i].role.key] == i)
    && (forall i: nat, j: nat :: IsAsking(s, i) && IsAsking(s, j) && s.tasks[i].role.key == s.tasks[j].role.key ==> i == j)
    && (forall key <- s.inflight :: IsAsking(s, s.inflight[key]) && s.tasks[s.inflight[key]].role.key == key
                                    && s.tasks[s.inflight[key]].role.promise.Pending?)
  }

  lemma FlightsAreUnique(s: Sys)
    requires Flights(s)
    ensures OnePerKey(s)
  {
    forall i | 0 <= i < |s.tasks| && s.tasks[i].role.Leader? ensures LeaderOk(s.inflight, i, s.tasks[i]) {
      assert TaskOk(s.tasks, s.inflight, i, s.tasks[i]);
    }
  }

  /** The queries being asked upstream and the in-flight map agree, so no key is ever asked
      twice at a time. */
  lemma OneFlightPerKey(cfg: Config, zone: Zone, now: real, events: seq<Event>)
    ensures OnePerKey(Run(cfg, Start(zone, now), events))
  {
    RunKeeps(cfg, Start(zone, now), events);
    FlightsAreUnique(Run(cfg, Start(zone, now), events));
  }

  /** Nobody waits on an orphan: the flight of a waiting query is live, or its promise is
      settled and the query can go on. */
  lemma NoOrphanedWait(cfg: Config, zone: Zone, now: real, events: seq<Event>, i: nat)
    requires var s := Run(cfg, Start(zone, now), events); i < |s.tasks| && s.tasks[i].phase.Waiting?
    ensures var s := Run(cfg, Start(zone, now), events);
            && IsWaiting(s, i)
            && var l := s.tasks[i].role.leader;
               s.tasks[l].role.key == s.tasks[i].role.key
               && (IsAsking(s, l) || Next(cfg, s, Resumes(i)).tasks[i].phase.Replied?)
  {
    RunKeeps(cfg, Start(zone, now), events);
    var s := Run(cfg, Start(zone, now), events);
    assert TaskOk(s.tasks, s.inflight, i, s.tasks[i]);
    var l := s.tasks[i].role.leader;
    assert TaskOk(s.tasks, s.inflight, l, s.tasks[l]);
  }

  /** A query that waited is served the very bytes its flight brought home, under its own id;
      it gets SERVFAIL when the flight brought nothing, failed, or the wait was cut short. */
  lemma JoinersShareTheFlight(cfg: Config, zone: Zone, now: real, events: seq<Event>, i: nat)
    requires var s := Run(cfg, Start(zone, now), events);
             i < |s.tasks| && s.tasks[i].role.Joiner? && s.tasks[i].phase.Replied?
    ensures var s := Run(cfg, Start(zone, now), events);
            var t := s.tasks[i];
            && t.role.leader < |s.tasks| && s.tasks[t.role.leader].role.Leader?
            && var l := s.tasks[t.role.leader];
               && l.role.key == t.role.key
               && (t.phase.interrupted ==> t.phase.reply == ServFail)
               && (!t.phase.interrupted && l.phase.Dropped? ==> t.phase.reply == ServFail)
               && (!t.phase.interrupted && !l.phase.Dropped? ==>
                     && l.phase.Replied? && l.role.promise.Kept?
                     && (l.phase.reply == ServFail <==> t.phase.reply == ServFail)
                     && (t.phase.reply != ServFail ==>
                           && l.role.promise.answer.Some?
                           && t.phase.reply == Bytes(WithTxid(l.role.promise.answer.value, Txid(t.payload)))
                           && l.phase.reply == Bytes(WithTxid(l.role.promise.answer.value, Txid(l.payload)))))
  {
    RunKeeps(cfg, Start(zone, now), events);
    var s := Run(cfg, Start(zone, now), events);
    assert TaskOk(s.tasks, s.inflight, i, s.tasks[i]);
    var l := s.tasks[i].role.leader;
    assert TaskOk(s.tasks, s.inflight, l, s.tasks[l]);
  }

  /** A query is answered once: what has ended never changes again. */
  lemma EndedStays(cfg: Config, s: Sys, e: Event, i: nat)
    requires Flights(s) && i < |s.tasks| && (s.tasks[i].phase.Replied? || s.tasks[i].phase.Dropped?)
    ensures i < |Next(cfg, s, e).tasks| && Next(cfg, s, e).tasks[i] == s.tasks[i]
  {
    if e.Arrive? {
      EnlistFrame(cfg, Consulted(cfg, s, e.payload), Decision(cfg, s, e.payload), e.payload, e.viaTcp, e.id);
    }
  }

  function Failures(l: nat, n: nat): seq<Event> { seq(n, k => Fails(l)) }

  lemma {:induction false} FailuresLand(cfg: Config, s: Sys, l: nat)
    requires Flights(s) && IsAsking(s, l)
    ensures var s' := Run(cfg, s, Failures(l, |s.tasks[l].phase.queue|));
            && Flights(s') && |s'.tasks| == |s.tasks|
            && (forall j :: 0 <= j < |s.tasks| && j != l ==> s'.tasks[j] == s.tasks[j])
            && s'.tasks[l].role.Leader? && s'.tasks[l].role.promise == Kept(None)
    decreases |s.tasks[l].phase.queue|
  {
    var n := |s.tasks[l].phase.queue|;
    var s1 := Next(cfg, s, Fails(l));
    StepKeeps(cfg, s, Fails(l));
    assert Failures(l, n) == [Fails(l)] + Failures(l, n - 1);
    RunInTwo(cfg, s, [Fails(l)], Failures(l, n - 1));
    assert [Fails(l)][..0] == [];
    assert Run(cfg, s, [Fails(l)]) == s1;
    if n > 1 {
      FailuresLand(cfg, s1, l);
    } else {
      assert Failures(l, n - 1) == [];
    }
  }

  lemma StrandedResumes(cfg: Config, s: Sys, i: nat)
    requires Flights(s) && IsWaiting(s, i) && IsAsking(s, s.tasks[i].role.leader)
    ensures var l := s.tasks[i].role.leader;
            var s' := Run(cfg, s, Failures(l, |s.tasks[l].phase.queue|) + [Resumes(i)]);
            i < |s'.tasks| && s'.tasks[i].phase == Replied(ServFail, false)
  {
    var l := s.tasks[i].role.leader;
    var failures := Failures(l, |s.tasks[l].phase.queue|);
    FailuresLand(cfg, s, l);
    RunInTwo(cfg, s, failures, [Resumes(i)]);
    assert [Resumes(i)][..0] == [];
    var landed := Run(cfg, s, failures);
    assert Run(cfg, landed, [Resumes(i)]) == Next(cfg, landed, Resumes(i));
  }

  /** Nobody is stranded: wherever a query waits, the failures its flight can still suffer
      end the flight, and then the query answers SERVFAIL. */
  lemma NobodyIsStranded(cfg: Config, zone: Zone, now: real, events: seq<Event>, i: nat)
    requires var s := Run(cfg, Start(zone, now), events);
             IsWaiting(s, i) && IsAsking(s, s.tasks[i].role.leader)
    ensures var s := Run(cfg, Start(zone, now), events);
            var l := s.tasks[i].role.leader;
            var s' := Run(cfg, s, Failures(l, |s.tasks[l].phase.queue|) + [Resumes(i)]);
            i < |s'.tasks| && s'.tasks[i].phase == Replied(ServFail, false)
  {
    RunKeeps(cfg, Start(zone, now), events);
    StrandedResumes(cfg, Run(cfg, Start(zone, now), events), i);
  }
}
