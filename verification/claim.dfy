/** The claim/undo protocol as a transition system: the rule table, the record of intent, and
    one daemon that may crash between any two steps and inside any script. */
module Claim {
  import opened Prelude
  import opened Nrpt
  import opened NetStates

  /** Where the daemon is. `zone` is the namespace tuple of the zone being claimed. */
  datatype Phase =
    | Down
    | Fresh(pid: int)                                                    // leftovers dealt with
    | Bound(pid: int)                                                    // sockets bound
    | Intended(state: NetState, zone: seq<Namespace>)                    // intent recorded
    | Applying(state: NetState, zone: seq<Namespace>, script: seq<Statement>)
    | Settled(state: NetState, zone: seq<Namespace>, applied: seq<Namespace>)
    | Serving(pid: int, zone: seq<Namespace>, applied: seq<Namespace>)
    | Removing(applied: seq<Namespace>, script: seq<Statement>)
    | Closing
    | Closed                                                             // clean shutdown recorded

  /** `orphans` is history: the marked namespaces that were left when a record was deleted. */
  datatype Sys = Sys(table: Table, record: Option<NetState>, phase: Phase, orphans: set<Namespace>)

  datatype Step =
    | Boot(pid: int, removed: bool)      // the leftover pass; `removed`: its removal worked
    | Bind
    | BindFails
    | WriteIntent(servers: seq<string>, zone: seq<Namespace>)
    | SkipEmpty                          // nothing to claim
    | MakePlan(servers: seq<string>, present: seq<Namespace>)
    | Exec(happened: bool)               // a removal may silently not happen
    | ApplyDone
    | ApplyFails
    | Confirm
    | Reload(servers: seq<string>, zone: seq<Namespace>)
    | BeginStop
    | ExecRemoval(happened: bool)
    | RemovalDone
    | RemovalFails
    | MarkClean
    | ClearRecord(cleared: bool)         // the unlink may fail
    | Crash
    | RepairExec(statement: Statement)   // one removal of the repair command
    | RepairClear

  function StartState(pid: int, servers: seq<string>): NetState {
    DEFAULT.(pid := pid, mechanism := "nrpt", listen := servers)
  }

  /** The namespaces of either list, each once. */
  function Union(a: seq<Namespace>, b: seq<Namespace>): (r: seq<Namespace>)
    ensures AsSet(r) == AsSet(a) + AsSet(b)
  {
    Dedup(a + b)
  }

  function Perform(table: Table, statement: Statement, happened: bool): Table {
    if happened || statement.AddOurs? then Nrpt.Exec(table, statement) else table
  }

  function DeleteRecord(s: Sys): Sys { s.(record := None, orphans := Ours(s.table)) }

  /** The leftover pass of `start`; a failed removal is swallowed and the record still goes. */
  function ClearLeftovers(s: Sys, removed: bool): Sys {
    if s.record.None? then s
    else if s.record.value.cleanShutdown then DeleteRecord(s)
    else DeleteRecord(if removed then s.(table := ExecAll(s.table, PlanRemoveAll().script)) else s)
  }

  /** One step; a step that is not possible changes nothing. */
  function Next(s: Sys, step: Step): Sys {
    match step
    case Boot(pid, removed) =>
      if s.phase.Down? then ClearLeftovers(s, removed).(phase := Fresh(pid)) else s
    case Bind => if s.phase.Fresh? then s.(phase := Bound(s.phase.pid)) else s
    case BindFails => if s.phase.Fresh? then s.(phase := Down) else s
    case WriteIntent(servers, zone) =>
      if s.phase.Bound? then
        var state := StartState(s.phase.pid, servers).(intent := zone);
        s.(record := Some(state), phase := Intended(state, zone))
      else s
    case SkipEmpty =>
      if s.phase.Intended? && s.phase.zone == [] then
        var state := s.phase.state.(confirmed := []);
        s.(record := Some(state), phase := Serving(state.pid, [], []))
      else s
    case MakePlan(servers, present) =>
      if s.phase.Intended? && s.phase.zone != [] then
        s.(phase := Applying(s.phase.state, s.phase.zone, PlanApply(s.phase.zone, servers, present).script))
      else s
    case Exec(happened) =>
      if s.phase.Applying? && s.phase.script != [] then
        s.(table := Perform(s.table, s.phase.script[0], happened),
           phase := Applying(s.phase.state, s.phase.zone, s.phase.script[1..]))
      else s
    case ApplyDone =>
      if s.phase.Applying? && s.phase.script == [] then
        s.(phase := Settled(s.phase.state, s.phase.zone, s.phase.zone))
      else s
    case ApplyFails =>
      // whatever was executed, the daemon forgets that it applied anything
      if s.phase.Applying? then s.(phase := Settled(s.phase.state, s.phase.zone, [])) else s
    case Confirm =>
      if s.phase.Settled? then
        var state := s.phase.state.(confirmed := s.phase.applied);
        s.(record := Some(state), phase := Serving(state.pid, s.phase.zone, s.phase.applied))
      else s
    case Reload(servers, zone) =>
      if s.phase.Serving? && AsSet(zone) != AsSet(s.phase.zone) then
        var state := if s.record.Some? then s.record.value else StartState(s.phase.pid, servers);
        var widened := state.(intent := Union(state.intent, zone));
        s.(record := Some(widened), phase := Intended(widened, zone))
      else s
    case BeginStop =>
      if s.phase.Serving? then
        s.(phase := if s.phase.applied == [] then Closing
                    else Removing(s.phase.applied, PlanRemove(s.phase.applied).script))
      else s
    case ExecRemoval(happened) =>
      if s.phase.Removing? && s.phase.script != [] then
        s.(table := Perform(s.table, s.phase.script[0], happened),
           phase := Removing(s.phase.applied, s.phase.script[1..]))
      else s
    case RemovalDone => if s.phase.Removing? && s.phase.script == [] then s.(phase := Closing) else s
    case RemovalFails => if s.phase.Removing? then s.(phase := Closing) else s
    case MarkClean =>
      if s.phase.Closing? then
        s.(record := if s.record.Some? then Some(s.record.value.(cleanShutdown := true, confirmed := [])) else None,
           phase := Closed)
      else s
    case ClearRecord(cleared) =>
      if s.phase.Closed? then (if cleared then DeleteRecord(s) else s).(phase := Down) else s
    case Crash => s.(phase := Down)
    case RepairExec(statement) =>
      if s.phase.Down? && !statement.AddOurs? then s.(table := Nrpt.Exec(s.table, statement)) else s
    case RepairClear => if s.phase.Down? then DeleteRecord(s) else s
  }

  function Run(s: Sys, steps: seq<Step>): Sys {
    if steps == [] then s else Next(Run(s, steps[..|steps| - 1]), steps[|steps| - 1])
  }

  // ---- safety ----

  function Intent(record: Option<NetState>): set<Namespace> {
    if record.Some? then AsSet(record.value.intent) else {}
  }

  /** Every rule of ours is named in the recorded intent, or is an orphan. */
  ghost predicate Covered(s: Sys) { Ours(s.table) <= Intent(s.record) + s.orphans }

  predicate AddsWithin(script: seq<Statement>, names: set<Namespace>) {
    forall st <- script :: st.AddOurs? ==> st.namespace in names
  }

  /** A session that has recorded its intent still has that record, and every namespace it may
      claim is in it. */
  ghost predicate PhaseOk(s: Sys) {
    match s.phase
    case Down => true
    case Fresh(_) => s.record.None?
    case Bound(_) => s.record.None?
    case Intended(state, zone) => s.record == Some(state) && !state.cleanShutdown && AsSet(zone) <= AsSet(state.intent)
    case Applying(state, zone, script) =>
      s.record == Some(state) && !state.cleanShutdown && AsSet(zone) <= AsSet(state.intent)
      && AddsWithin(script, AsSet(zone))
    case Settled(state, zone, applied) =>
      s.record == Some(state) && !state.cleanShutdown && AsSet(zone) <= AsSet(state.intent)
      && AsSet(applied) <= AsSet(zone)
    case Serving(pid, zone, applied) =>
      s.record.Some? && s.record.value.pid == pid && !s.record.value.cleanShutdown && AsSet(zone) <= Intent(s.record)
      && AsSet(applied) <= AsSet(zone)
    case Removing(applied, script) =>
      s.record.Some? && !s.record.value.cleanShutdown && AddsWithin(script, {})
    case Closing => s.record.Some? && !s.record.value.cleanShutdown
    case Closed => s.record.Some? && s.record.value.cleanShutdown
  }

  ghost predicate Safe(foreign: Table, s: Sys) {
    Foreign(s.table) == foreign && Covered(s) && PhaseOk(s)
  }

  lemma PerformEffect(table: Table, statement: Statement, happened: bool)
    ensures Foreign(Perform(table, statement, happened)) == Foreign(table)
    ensures Ours(Perform(table, statement, happened))
            <= Ours(table) + if statement.AddOurs? then {statement.namespace} else {}
  {
    ExecEffect(table, statement);
  }

  lemma PlanAddsWithin(zone: seq<Namespace>, servers: seq<string>, present: seq<Namespace>)
    ensures AddsWithin(PlanApply(zone, servers, present).script, AsSet(zone))
    ensures AddsWithin(PlanRemove(zone).script, {})
  {
    var plan := PlanApply(zone, servers, present);
    forall st | st in plan.script && st.AddOurs? ensures st.namespace in AsSet(zone) {
      var i := PlaceOf(plan.script, st);
      assert st.namespace == plan.add[i - |plan.remove|] && st.namespace in plan.add;
    }
  }

  lemma BootIsSafe(foreign: Table, s: Sys, removed: bool)
    requires Foreign(s.table) == foreign && Covered(s)
    ensures var s' := ClearLeftovers(s, removed); Foreign(s'.table) == foreign && Covered(s') && s'.record.None?
  {
    RemoveAllLeavesForeign(s.table);
    ForeignHasNone(s.table);
  }

  lemma ExecIsSafe(foreign: Table, s: Sys, happened: bool)
    requires Safe(foreign, s)
    ensures Safe(foreign, Next(s, Exec(happened)))
  {
    if s.phase.Applying? && s.phase.script != [] {
      PerformEffect(s.table, s.phase.script[0], happened);
    }
  }

  lemma ExecRemovalIsSafe(foreign: Table, s: Sys, happened: bool)
    requires Safe(foreign, s)
    ensures Safe(foreign, Next(s, ExecRemoval(happened)))
  {
    if s.phase.Removing? && s.phase.script != [] {
      PerformEffect(s.table, s.phase.script[0], happened);
    }
  }

  lemma WriteIsSafe(foreign: Table, s: Sys, step: Step)
    requires Safe(foreign, s) && (step.WriteIntent? || step.SkipEmpty? || step.Confirm? || step.MarkClean?)
    ensures Safe(foreign, Next(s, step))
  {
  }

  lemma DeleteIsSafe(foreign: Table, s: Sys, step: Step)
    requires Safe(foreign, s) && (step.ClearRecord? || step.RepairClear?)
    ensures Safe(foreign, Next(s, step))
  {
  }

  /** Widening the intent before anything is applied keeps what was claimed under it. */
  lemma ReloadIsSafe(foreign: Table, s: Sys, servers: seq<string>, zone: seq<Namespace>)
    requires Safe(foreign, s)
    ensures Safe(foreign, Next(s, Reload(servers, zone)))
  {
    if s.phase.Serving? {
      var before := s.record.value;
      assert AsSet(Union(before.intent, zone)) == AsSet(before.intent) + AsSet(zone);
    }
  }

  lemma StepIsSafe(foreign: Table, s: Sys, step: Step)
    requires Safe(foreign, s)
    ensures Safe(foreign, Next(s, step))
  {
    match step
    case Boot(_, removed) => BootIsSafe(foreign, s, removed);
    case MakePlan(servers, present) =>
      if s.phase.Intended? { PlanAddsWithin(s.phase.zone, servers, present); }
    case Exec(happened) => ExecIsSafe(foreign, s, happened);
    case ExecRemoval(happened) => ExecRemovalIsSafe(foreign, s, happened);
    case BeginStop =>
      if s.phase.Serving? { PlanAddsWithin(s.phase.applied, [], []); }
    case RepairExec(statement) => ExecEffect(s.table, statement);
    case Bind =>
    case BindFails =>
    case ApplyDone =>
    case ApplyFails =>
    case RemovalDone =>
    case RemovalFails =>
    case Crash =>
    case Reload(servers, zone) => ReloadIsSafe(foreign, s, servers, zone);
    case ClearRecord(_) => DeleteIsSafe(foreign, s, step);
    case RepairClear => DeleteIsSafe(foreign, s, step);
    case _ => WriteIsSafe(foreign, s, step);
  }

  lemma {:induction false} RunIsSafe(foreign: Table, s: Sys, steps: seq<Step>)
    requires Safe(foreign, s)
    ensures Safe(foreign, Run(s, steps))
  {
    if steps != [] {
      RunIsSafe(foreign, s, steps[..|steps| - 1]);
      StepIsSafe(foreign, Run(s, steps[..|steps| - 1]), steps[|steps| - 1]);
    }
  }

  /** The steps that delete a record without having removed everything first. */
  predicate MayOrphan(step: Step) {
    match step
    case Boot(_, removed) => !removed
    case ClearRecord(cleared) => cleared
    case RepairClear => true
    case _ => false
  }

  /** The steps of sessions that have not yet begun to close their record. */
  ghost predicate Open(steps: seq<Step>) {
    forall step <- steps :: !MayOrphan(step) && !step.MarkClean?
  }

  /** The steps from there on, up to the next start. */
  ghost predicate Closure(steps: seq<Step>) {
    forall step <- steps :: !MayOrphan(step) && !step.Boot?
  }

  lemma {:induction false} NoOrphans(foreign: Table, s: Sys, steps: seq<Step>)
    requires Safe(foreign, s) && s.orphans == {} && Open(steps)
    requires s.record.Some? ==> !s.record.value.cleanShutdown
    ensures var s' := Run(s, steps); s'.orphans == {} && (s'.record.Some? ==> !s'.record.value.cleanShutdown)
  {
    if steps != [] {
      var n := |steps| - 1;
      NoOrphans(foreign, s, steps[..n]);
      RunIsSafe(foreign, s, steps[..n]);
      var before := Run(s, steps[..n]);
      assert steps[n] in steps;
      if steps[n].Boot? {
        RemoveAllLeavesForeign(before.table);
        ForeignHasNone(before.table);
      }
    }
  }

  lemma {:induction false} ClosureKeepsOrphans(s: Sys, steps: seq<Step>)
    requires Closure(steps)
    ensures Run(s, steps).orphans == s.orphans
  {
    if steps != [] {
      ClosureKeepsOrphans(s, steps[..|steps| - 1]);
      assert steps[|steps| - 1] in steps;
    }
  }

  lemma {:induction false} RunInTwo(s: Sys, a: seq<Step>, b: seq<Step>)
    ensures Run(s, a + b) == Run(Run(s, a), b)
  {
    if b == [] {
      assert a + b == a;
    } else {
      assert (a + b)[..|a + b| - 1] == a + b[..|b| - 1];
      RunInTwo(s, a, b[..|b| - 1]);
    }
  }

  /** Crash safety. From a table without a rule of ours: after any reloads, failed or partial
      applies, untruthful readings of the table, crashes and restarts, and then any part of a
      shutdown short of deleting the record, every rule of ours is in the recorded intent and
      no foreign rule has changed. */
  lemma CrashSafety(table: Table, steps: seq<Step>, closing: seq<Step>)
    requires Ours(table) == {} && Open(steps) && Closure(closing)
    ensures var s := Run(Sys(table, None, Down, {}), steps + closing);
            && Foreign(s.table) == Foreign(table) && OthersUntouched(table, s.table)
            && Ours(s.table) <= Intent(s.record)
  {
    var start := Sys(table, None, Down, {});
    RunIsSafe(Foreign(table), start, steps + closing);
    NoOrphans(Foreign(table), start, steps);
    RunInTwo(start, steps, closing);
    ClosureKeepsOrphans(Run(start, steps), closing);
    SameForeignSameOthers(table, Run(start, steps + closing).table);
  }

  /** With no restriction at all: the foreign rules never change, and a rule of ours outside
      the recorded intent is one that was there when some record was deleted. */
  lemma NothingLostSight(table: Table, steps: seq<Step>)
    requires Ours(table) == {}
    ensures var s := Run(Sys(table, None, Down, {}), steps);
            && Foreign(s.table) == Foreign(table) && OthersUntouched(table, s.table)
            && Ours(s.table) <= Intent(s.record) + s.orphans
            && (s.phase.Applying? || s.phase.Serving? || s.phase.Removing? ==> s.record.Some?)
  {
    RunIsSafe(Foreign(table), Sys(table, None, Down, {}), steps);
    SameForeignSameOthers(table, Run(Sys(table, None, Down, {}), steps).table);
  }

  /** A namespace is only ever claimed by a daemon whose sockets are bound and whose record
      already names it. */
  lemma ClaimedOnlyAfterIntent(foreign: Table, s: Sys, step: Step, ns: Namespace)
    requires Safe(foreign, s) && ns in Ours(Next(s, step).table) && ns !in Ours(s.table)
    ensures s.phase.Applying? && s.record == Some(s.phase.state) && ns in s.phase.state.intent
    ensures ns in s.phase.zone
  {
    if step.Exec? || step.ExecRemoval? {
      if (s.phase.Applying? || s.phase.Removing?) && s.phase.script != [] {
        PerformEffect(s.table, s.phase.script[0], step.happened);
      }
    } else {
      OnlyScriptsAdd(s, step);
    }
  }

  lemma OnlyScriptsAdd(s: Sys, step: Step)
    requires !step.Exec? && !step.ExecRemoval?
    ensures Ours(Next(s, step).table) <= Ours(s.table)
  {
    if step.Boot? {
      RemoveAllLeavesForeign(s.table);
      ForeignHasNone(s.table);
    } else if step.RepairExec? {
      ExecEffect(s.table, step.statement);
    }
  }

  // ---- recovery ----

  /** What the repair command removes by the record alone. */
  function Recorded(record: Option<NetState>): seq<Namespace> {
    if record.Some? then Dedup(record.value.confirmed + record.value.intent) else []
  }

  lemma RecordedIsBoth(record: Option<NetState>)
    requires record.Some?
    ensures AsSet(Recorded(record)) == AsSet(record.value.confirmed) + AsSet(record.value.intent)
  {
    assert AsSet(Dedup(record.value.confirmed + record.value.intent)) == AsSet(record.value.confirmed + record.value.intent);
  }

  lemma RecordedHoldsIntent(record: Option<NetState>)
    ensures Intent(record) <= AsSet(Recorded(record))
  {
    if record.Some? {
      forall n | n in record.value.intent ensures n in Recorded(record) {
        assert n in record.value.confirmed + record.value.intent;
      }
    }
  }

  /** Each of the two recovery paths suffices on its own wherever the protocol can crash: the
      recorded removal, because the intent covers everything; the marker scan, always. */
  lemma EitherPathRecovers(table: Table, steps: seq<Step>, closing: seq<Step>)
    requires Ours(table) == {} && Open(steps) && Closure(closing)
    ensures var s := Run(Sys(table, None, Down, {}), steps + closing);
            && Ours(ExecAll(s.table, PlanRemove(Recorded(s.record)).script)) == {}
            && OthersUntouched(table, ExecAll(s.table, PlanRemove(Recorded(s.record)).script))
            && ExecAll(s.table, PlanRemoveAll().script) == Foreign(table)
            && TheUnmarked(table, ExecAll(s.table, PlanRemoveAll().script))
  {
    CrashSafety(table, steps, closing);
    var s := Run(Sys(table, None, Down, {}), steps + closing);
    RemoveLeavesTheRest(s.table, Recorded(s.record));
    RemoveAllLeavesForeign(s.table);
    RecordedHoldsIntent(s.record);
    ForeignIsTheUnmarked(table);
    SameForeignSameOthers(table, ExecAll(s.table, PlanRemove(Recorded(s.record)).script));
  }

  /** The next start's leftover pass: it leaves no rule of ours exactly when there was none, or
      it found an unclean record and its removal worked. In every case the foreign rules stay. */
  lemma LeftoverPassExactly(s: Sys, removed: bool)
    ensures Ours(ClearLeftovers(s, removed).table) == {}
            <==> Ours(s.table) == {} || (s.record.Some? && !s.record.value.cleanShutdown && removed)
    ensures Foreign(ClearLeftovers(s, removed).table) == Foreign(s.table)
  {
    RemoveAllLeavesForeign(s.table);
    ForeignHasNone(s.table);
  }

  /** So after a crash anywhere in the protocol a restart whose removal works starts clean. */
  lemma RestartRecovers(table: Table, steps: seq<Step>, pid: int)
    requires Ours(table) == {} && Open(steps)
    ensures var s := Run(Sys(table, None, Down, {}), steps + [Crash, Boot(pid, true)]);
            && Ours(s.table) == {} && Foreign(s.table) == Foreign(table) && OthersUntouched(table, s.table)
            && s.phase == Fresh(pid) && s.record.None?
  {
    RestartIsClean(table, steps, pid);
    SameForeignSameOthers(table, Run(Sys(table, None, Down, {}), steps + [Crash, Boot(pid, true)]).table);
  }

  lemma RestartIsClean(table: Table, steps: seq<Step>, pid: int)
    requires Ours(table) == {} && Open(steps)
    ensures var s := Run(Sys(table, None, Down, {}), steps + [Crash, Boot(pid, true)]);
            Ours(s.table) == {} && Foreign(s.table) == Foreign(table) && s.phase == Fresh(pid) && s.record.None?
  {
    var start := Sys(table, None, Down, {});
    var before := Run(start, steps);
    RunIsSafe(Foreign(table), start, steps);
    NoOrphans(Foreign(table), start, steps);
    RunInTwo(start, steps, [Crash, Boot(pid, true)]);
    RunTwo(before, Crash, Boot(pid, true));
    LeftoverPassExactly(Next(before, Crash), true);
  }

  // ---- what a stop leaves ----

  function RunRemovals(n: nat): seq<Step> { seq(n, i => ExecRemoval(true)) }

  lemma {:induction false} RemovalsPrefix(s: Sys, n: nat)
    requires s.phase.Removing? && n <= |s.phase.script|
    ensures Run(s, RunRemovals(n))
            == s.(table := ExecAll(s.table, s.phase.script[..n]), phase := Removing(s.phase.applied, s.phase.script[n..]))
  {
    if n == 0 {
      assert s.phase.script[0..] == s.phase.script;
    } else {
      RemovalsPrefix(s, n - 1);
      assert RunRemovals(n)[..n - 1] == RunRemovals(n - 1);
      var script := s.phase.script;
      assert script[n - 1..][1..] == script[n..];
      assert script[..n] == script[..n - 1] + [script[n - 1]];
      ExecAllAppend(s.table, script[..n - 1], [script[n - 1]]);
    }
  }

  /** The steps of a shutdown in which every removal happens and the record is deleted. */
  function StopSteps(applied: seq<Namespace>): seq<Step> {
    [BeginStop] + (if applied == [] then [] else RunRemovals(|PlanRemove(applied).script|) + [RemovalDone])
    + [MarkClean, ClearRecord(true)]
  }

  lemma RunTwo(s: Sys, a: Step, b: Step)
    ensures Run(s, [a]) == Next(s, a)
    ensures Run(s, [a, b]) == Next(Next(s, a), b)
  {
    assert [a][..0] == [];
    assert [a, b][..1] == [a];
  }

  lemma RunFour(s: Sys, a: Step, b: Step, c: Step, d: Step)
    ensures Run(s, [a, b, c, d]) == Next(Next(Next(Next(s, a), b), c), d)
  {
    RunTwo(s, a, b);
    RunTwo(Run(s, [a, b]), c, d);
    RunInTwo(s, [a, b], [c, d]);
    assert [a, b] + [c, d] == [a, b, c, d];
  }

  /** The middle of a shutdown: the remembered rules go. */
  lemma RemovalsReach(s: Sys)
    requires s.phase.Serving?
    ensures var applied := s.phase.applied;
            var middle := if applied == [] then [] else RunRemovals(|PlanRemove(applied).script|) + [RemovalDone];
            Run(Next(s, BeginStop), middle)
            == s.(table := ExecAll(s.table, PlanRemove(applied).script), phase := Closing)
  {
    var applied := s.phase.applied;
    var closing := Next(s, BeginStop);
    var script := PlanRemove(applied).script;
    if applied == [] {
      assert script == [];
    } else {
      RemovalsPrefix(closing, |script|);
      WholePrefix(script);
      RunTwo(Run(closing, RunRemovals(|script|)), RemovalDone, RemovalDone);
      RunInTwo(closing, RunRemovals(|script|), [RemovalDone]);
      assert script[|script|..] == [];
    }
  }

  lemma StopReaches(s: Sys)
    requires s.phase.Serving? && s.record.Some?
    ensures var s' := Run(s, StopSteps(s.phase.applied));
            s'.phase.Down? && s'.record.None? && s'.orphans == Ours(s'.table)
            && s'.table == ExecAll(s.table, PlanRemove(s.phase.applied).script)
  {
    var applied := s.phase.applied;
    var middle := if applied == [] then [] else RunRemovals(|PlanRemove(applied).script|) + [RemovalDone];
    RunTwo(s, BeginStop, BeginStop);
    RunInTwo(s, [BeginStop], middle);
    RunInTwo(s, [BeginStop] + middle, [MarkClean, ClearRecord(true)]);
    RemovalsReach(s);
    RunTwo(Run(Next(s, BeginStop), middle), MarkClean, ClearRecord(true));
  }

  /** A complete shutdown leaves exactly the rules of ours that the daemon did not remember
      having applied: it puts the machine back if and only if it remembered them all. */
  lemma StopLeavesTheForgotten(s: Sys)
    requires s.phase.Serving? && s.record.Some?
    ensures var s' := Run(s, StopSteps(s.phase.applied));
            && s'.phase.Down? && s'.record.None?
            && Foreign(s'.table) == Foreign(s.table)
            && Ours(s'.table) == Ours(s.table) - AsSet(s.phase.applied)
            && (Ours(s'.table) == {} <==> Ours(s.table) <= AsSet(s.phase.applied))
  {
    StopReaches(s);
    RemoveLeavesTheRest(s.table, s.phase.applied);
    if Ours(s.table) - AsSet(s.phase.applied) == {} {
      forall n | n in Ours(s.table) ensures n in AsSet(s.phase.applied) {
        assert n !in Ours(s.table) - AsSet(s.phase.applied);
      }
    }
  }

  /** A shutdown whose removal failed still marks the record clean: if the daemon dies before deleting
      it, the next start believes the mark, removes nothing and deletes the record itself. */
  lemma CleanMarkIsBelieved(s: Sys, pid: int, removed: bool)
    requires s.phase.Closing? && s.record.Some?
    ensures var s' := Run(s, [MarkClean, Crash, Boot(pid, removed), Boot(pid, removed)]);
            s'.table == s.table && s'.record.None? && s'.phase == Fresh(pid)
  {
    RunFour(s, MarkClean, Crash, Boot(pid, removed), Boot(pid, removed));
  }

  /** Two ways to forget: a reload to an empty zone returns before removing anything, and a
      failed apply drops what earlier ones applied. After either, a complete shutdown leaves
      the table as it was, with no record of it. */
  lemma ForgettingLeaks(s: Sys, servers: seq<string>, zone: seq<Namespace>, present: seq<Namespace>)
    requires s.phase.Serving? && s.record.Some? && AsSet(zone) != AsSet(s.phase.zone)
    ensures var forgot := if zone == [] then [Reload(servers, zone), SkipEmpty]
                          else [Reload(servers, zone), MakePlan(servers, present), ApplyFails, Confirm];
            var s' := Run(Run(s, forgot), StopSteps([]));
            s'.table == s.table && s'.phase.Down? && s'.record.None?
  {
    if zone == [] {
      EmptyingForgets(s, servers);
    } else {
      FailingForgets(s, servers, zone, present);
    }
    var forgot := if zone == [] then [Reload(servers, zone), SkipEmpty]
                  else [Reload(servers, zone), MakePlan(servers, present), ApplyFails, Confirm];
    StopReaches(Run(s, forgot));
    assert PlanRemove([]).script == [];
  }

  lemma EmptyingForgets(s: Sys, servers: seq<string>)
    requires s.phase.Serving? && s.record.Some? && AsSet([]) != AsSet(s.phase.zone)
    ensures var s' := Run(s, [Reload(servers, []), SkipEmpty]);
            s'.table == s.table && s'.phase.Serving? && s'.phase.applied == [] && s'.record.Some?
  {
    RunTwo(s, Reload(servers, []), SkipEmpty);
  }

  lemma FailingForgets(s: Sys, servers: seq<string>, zone: seq<Namespace>, present: seq<Namespace>)
    requires s.phase.Serving? && s.record.Some? && AsSet(zone) != AsSet(s.phase.zone) && zone != []
    ensures var s' := Run(s, [Reload(servers, zone), MakePlan(servers, present), ApplyFails, Confirm]);
            s'.table == s.table && s'.phase.Serving? && s'.phase.applied == [] && s'.record.Some?
  {
    var reloaded := Next(s, Reload(servers, zone));
    FailedApplyForgets(reloaded, servers, present);
    RunFour(s, Reload(servers, zone), MakePlan(servers, present), ApplyFails, Confirm);
  }

  lemma FailedApplyForgets(s: Sys, servers: seq<string>, present: seq<Namespace>)
    requires s.phase.Intended? && s.phase.zone != []
    ensures var s' := Next(Next(Next(s, MakePlan(servers, present)), ApplyFails), Confirm);
            s'.table == s.table && s'.phase.Serving? && s'.phase.applied == [] && s'.record.Some?
  {
  }

  const ONE: seq<Namespace> := ["a.test"]

  lemma OneNamePlan(servers: seq<string>)
    ensures PlanApply(ONE, servers, []).script == [AddOurs("a.test", servers)]
    ensures AsSet(ONE) != AsSet([])
  {
    assert ["a.test"][..0] == [];
    assert Dedup(ONE) == ONE;
    assert Minus(ONE, []) == ONE && Minus([], ONE) == [];
    assert "a.test" in AsSet(ONE);
  }

  /** A first start with one name. */
  lemma StartWithOne(servers: seq<string>)
    ensures Run(Sys([], None, Down, {}), [Boot(1, true), Bind, WriteIntent(servers, ONE), MakePlan(servers, [])])
            == var state := StartState(1, servers).(intent := ONE);
               Sys([], Some(state), Applying(state, ONE, [AddOurs("a.test", servers)]), {})
  {
    OneNamePlan(servers);
    RunFour(Sys([], None, Down, {}), Boot(1, true), Bind, WriteIntent(servers, ONE), MakePlan(servers, []));
  }

  lemma ApplyTheOne(servers: seq<string>)
    ensures var state := StartState(1, servers).(intent := ONE);
            Run(Sys([], Some(state), Applying(state, ONE, [AddOurs("a.test", servers)]), {}),
                [Exec(true), ApplyDone, Confirm, Confirm])
            == Sys([Rule(true, "a.test", servers)], Some(state.(confirmed := ONE)), Serving(1, ONE, ONE), {})
  {
    var state := StartState(1, servers).(intent := ONE);
    RunFour(Sys([], Some(state), Applying(state, ONE, [AddOurs("a.test", servers)]), {}),
            Exec(true), ApplyDone, Confirm, Confirm);
  }

  /** The first of these, from a standing start: one name is claimed, the zone is emptied, the
      daemon is stopped in good order, and the rule is still there. */
  lemma EmptiedZoneLeavesItsRule(servers: seq<string>)
    ensures var started := Run(Sys([], None, Down, {}),
                               [Boot(1, true), Bind, WriteIntent(servers, ONE), MakePlan(servers, [])]);
            var serving := Run(started, [Exec(true), ApplyDone, Confirm, Confirm]);
            var stopped := Run(Run(serving, [Reload(servers, []), SkipEmpty]), StopSteps([]));
            stopped.table == [Rule(true, "a.test", servers)] && stopped.record.None? && stopped.phase.Down?
  {
    StartWithOne(servers);
    ApplyTheOne(servers);
    OneNamePlan(servers);
    var state := StartState(1, servers).(intent := ONE);
    ForgettingLeaks(Sys([Rule(true, "a.test", servers)], Some(state.(confirmed := ONE)), Serving(1, ONE, ONE), {}),
                    servers, [], []);
  }
}
