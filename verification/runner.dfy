/** The daemon's lifecycle, the policy object it drives and the repair command, as they run.
    Every effect on the machine is also a step of the transition system of `Claim`. */
module Runners {
  import opened Prelude
  import opened Nrpt
  import opened NetStates
  import opened Claim

  /** What the operating system and the disk hold. */
  class Machine {
    var table: Table
    var record: Option<NetState>

    constructor (table: Table, record: Option<NetState>)
      ensures this.table == table && this.record == record
    {
      this.table := table;
      this.record := record;
    }
  }

  /** How one PowerShell batch ends: complete, or reported as failed after some statements. */
  datatype Batch = Completes | Fails(after: nat)

  function Executed(script: seq<Statement>, batch: Batch): (n: nat)
    ensures n <= |script|
  {
    if batch.Completes? || batch.after > |script| then |script| else batch.after
  }

  /** `read_present` answers nothing when the query fails. */
  function ReadPresent(reading: Option<seq<Namespace>>): seq<Namespace> {
    if reading.Some? then reading.value else []
  }

  class WindowsPolicy {
    const machine: Machine

    constructor (machine: Machine)
      ensures this.machine == machine
    {
      this.machine := machine;
    }

    /** Runs a plan; a plan with nothing to do starts no process and cannot fail. */
    method Execute(plan: Plan, batch: Batch) returns (ok: bool)
      modifies machine`table
      ensures !(plan.Empty() || plan.script == []) ==>
                ok == batch.Completes?
                && machine.table == ExecAll(old(machine.table), plan.script[..Executed(plan.script, batch)])
      ensures plan.Empty() || plan.script == [] ==> ok && machine.table == old(machine.table)
    {
      if plan.Empty() || plan.script == [] {
        return true;
      }
      var n := Executed(plan.script, batch);
      assert plan.script[..0] == [];
      for i := 0 to n
        invariant machine.table == ExecAll(old(machine.table), plan.script[..i])
      {
        ExecAllAppend(old(machine.table), plan.script[..i], [plan.script[i]]);
        assert plan.script[..i + 1] == plan.script[..i] + [plan.script[i]];
        machine.table := Nrpt.Exec(machine.table, plan.script[i]);
      }
      ok := batch.Completes?;
    }

    /** `None` is the exception. */
    method Apply(namespaces: seq<Namespace>, servers: seq<string>, reading: Option<seq<Namespace>>, batch: Batch)
      returns (applied: Option<seq<Namespace>>)
      modifies machine`table
      ensures var present := if reading.Some? then reading.value else [];
              var script := PlanApply(namespaces, servers, present).script;
              && machine.table == ExecAll(old(machine.table), script[..Executed(script, batch)])
              && applied == if batch.Completes? || script == [] then Some(namespaces) else None
    {
      var plan := PlanApply(namespaces, servers, ReadPresent(reading));
      var ok := Execute(plan, batch);
      assert plan.script == [] ==> plan.script[..Executed(plan.script, batch)] == [];
      applied := if ok then Some(namespaces) else None;
    }

    method Remove(namespaces: seq<Namespace>, batch: Batch) returns (ok: bool)
      modifies machine`table
      ensures var script := PlanRemove(namespaces).script;
              && machine.table == ExecAll(old(machine.table), script[..Executed(script, batch)])
              && ok == (batch.Completes? || script == [])
    {
      var plan := PlanRemove(namespaces);
      ok := Execute(plan, batch);
      assert plan.script == [] ==> plan.script[..Executed(plan.script, batch)] == [];
    }

    /** A failure is logged and swallowed. */
    method RemoveAll(batch: Batch)
      modifies machine`table
      ensures machine.table == if Executed(PlanRemoveAll().script, batch) == 1 then Foreign(old(machine.table))
                               else old(machine.table)
      ensures batch.Completes? || batch.after > 0 ==> TheUnmarked(old(machine.table), machine.table)
    {
      RemoveAllLeavesForeign(machine.table);
      ForeignIsTheUnmarked(machine.table);
      var plan := PlanRemoveAll();
      var n := Executed(plan.script, batch);
      assert n == 0 ==> plan.script[..n] == [];
      assert n == 1 ==> plan.script[..n] == plan.script;
      var _ := Execute(plan, batch);
    }
  }

  class Runner {
    const machine: Machine
    const policy: WindowsPolicy
    const pid: int
    const servers: seq<string>
    var zone: Option<seq<Namespace>>      // the resolver's zone, once there is a resolver
    var applied: seq<Namespace>
    var policyError: bool

    ghost const origin: Sys
    ghost var steps: seq<Step>            // history: every effect so far, as a step
    ghost var sys: Sys                    // where that history leads

    /** The history is a run of the transition system, it began safely, and it accounts for
        what the machine holds and for what the runner remembers. */
    ghost predicate Valid()
      reads this, machine
    {
      && policy.machine == machine
      && sys == Run(origin, steps)
      && Safe(Foreign(origin.table), origin)
      && sys.table == machine.table && sys.record == machine.record
      && (match zone
          case Some(z) => sys.phase == Serving(pid, z, applied)
          case None => sys.phase.Down?)
    }

    constructor (machine: Machine, pid: int, servers: seq<string>, ghost orphans: set<Namespace>)
      requires Ours(machine.table) <= Intent(machine.record) + orphans
      ensures this.machine == machine && zone.None? && Valid() && fresh(policy)
      ensures sys == origin == Sys(machine.table, machine.record, Down, orphans)
    {
      this.machine := machine;
      this.policy := new WindowsPolicy(machine);
      this.pid := pid;
      this.servers := servers;
      zone := None;
      applied := [];
      policyError := false;
      origin := Sys(machine.table, machine.record, Down, orphans);
      steps := [];
      sys := Sys(machine.table, machine.record, Down, orphans);
    }

    ghost method Did(more: seq<Step>)
      requires sys == Run(origin, steps)
      modifies this`steps, this`sys
      ensures steps == old(steps) + more && sys == Run(origin, steps) && sys == Run(old(sys), more)
    {
      RunInTwo(origin, steps, more);
      sys := Run(sys, more);
      steps := steps + more;
    }

    /** The steps of an apply of which `n` statements were executed. */
    ghost method DidApply(state: NetState, namespaces: seq<Namespace>, present: seq<Namespace>, n: nat, ok: bool)
      requires sys == Run(origin, steps) && sys.phase == Intended(state, namespaces) && namespaces != []
      requires n <= |PlanApply(namespaces, servers, present).script|
      requires ok ==> n == |PlanApply(namespaces, servers, present).script|
      modifies this`steps, this`sys
      ensures old(steps) <= steps && sys == Run(origin, steps)
      ensures var applied := if ok then namespaces else [];
              sys == old(sys).(table := ExecAll(old(sys).table, PlanApply(namespaces, servers, present).script[..n]),
                               record := Some(state.(confirmed := applied)),
                               phase := Serving(state.pid, namespaces, applied))
    {
      ApplyRuns(sys, servers, present, n, ok);
      Did(ApplySteps(servers, present, n, ok));
    }

    /** A single step. */
    ghost method DidOne(step: Step)
      requires sys == Run(origin, steps)
      modifies this`steps, this`sys
      ensures old(steps) <= steps && sys == Run(origin, steps) && sys == Next(old(sys), step)
    {
      RunTwo(sys, step, step);
      Did([step]);
    }

    /** The record of a previous run decides; `removed` says whether its removal worked. */
    method ClearLeftovers(removal: Batch)
      requires Valid() && zone.None?
      modifies this`steps, this`sys, machine
      ensures policy.machine == machine && sys == Run(origin, steps)
      ensures sys == Next(old(sys), Boot(pid, removal.Completes? || removal.after > 0))
      ensures sys.table == machine.table && sys.record == machine.record
      ensures old(steps) <= steps
      ensures machine.record.None? && sys.phase == Fresh(pid)
    {
      DidOne(Boot(pid, removal.Completes? || removal.after > 0));
      RemoveAllLeavesForeign(machine.table);
      var previous := machine.record;
      if previous.None? {
        return;
      }
      if previous.value.cleanShutdown {
        machine.record := None;
        return;
      }
      policy.RemoveAll(removal);
      machine.record := None;
    }

    /** Claim `namespaces` under the record `state`, which is already on the disk. */
    method ApplyPolicy(namespaces: seq<Namespace>, state: NetState, reading: Option<seq<Namespace>>, batch: Batch)
      requires policy.machine == machine && sys == Run(origin, steps) && Safe(Foreign(origin.table), origin)
      requires sys.table == machine.table && sys.record == machine.record
      requires sys.phase == Intended(state, namespaces) && state.pid == pid
      requires zone == Some(namespaces)
      modifies this, machine
      ensures Valid() && zone == old(zone) && old(steps) <= steps
      ensures machine.record == Some(state.(confirmed := applied))
      ensures namespaces == [] ==> applied == [] && machine.table == old(machine.table)
      ensures namespaces != [] ==>
                var script := PlanApply(namespaces, servers, ReadPresent(reading)).script;
                && applied == (if batch.Completes? || script == [] then namespaces else [])
                && policyError == !(batch.Completes? || script == [])
                && machine.table == ExecAll(old(machine.table), script[..Executed(script, batch)])
    {
      ghost var script := PlanApply(namespaces, servers, ReadPresent(reading)).script;
      if namespaces == [] {
        applied := [];
        machine.record := Some(state.(confirmed := []));
        DidOne(SkipEmpty);
        return;
      }
      var result := policy.Apply(namespaces, servers, reading, batch);
      if result.Some? {
        applied := result.value;
        policyError := false;
      } else {
        policyError := true;
        applied := [];
      }
      machine.record := Some(state.(confirmed := applied));
      DidApply(state, namespaces, ReadPresent(reading), Executed(script, batch), result.Some?);
    }

    /** Leftovers, bind, record, apply: in that order. A refused bind changes nothing more. */
    method Start(namespaces: seq<Namespace>, removal: Batch, bound: bool, reading: Option<seq<Namespace>>, batch: Batch)
      returns (ok: bool)
      requires Valid() && zone.None?
      modifies this, machine
      ensures Valid() && ok == bound && old(steps) <= steps
      ensures !ok ==> zone.None? && machine.record.None?
                      && machine.table == Claim.ClearLeftovers(old(sys), removal.Completes? || removal.after > 0).table
      ensures ok ==> zone == Some(namespaces) && machine.record.Some?
                     && machine.record.value.intent == namespaces && machine.record.value.confirmed == applied
                     && !machine.record.value.cleanShutdown
      ensures ok && (namespaces == [] || batch.Completes?) ==> applied == namespaces
      ensures ok && namespaces != [] ==>
                var script := PlanApply(namespaces, servers, ReadPresent(reading)).script;
                machine.table == ExecAll(Claim.ClearLeftovers(old(sys), removal.Completes? || removal.after > 0).table,
                                         script[..Executed(script, batch)])
    {
      ClearLeftovers(removal);
      if !bound {
        DidOne(BindFails);
        return false;
      }
      var state := StartState(pid, servers).(intent := namespaces);
      machine.record := Some(state);
      DidOne(Bind);
      DidOne(WriteIntent(servers, namespaces));
      zone := Some(namespaces);
      ApplyPolicy(namespaces, state, reading, batch);
      ok := true;
    }

    /** Recompile the zone and claim the difference. */
    method Reload(namespaces: seq<Namespace>, reading: Option<seq<Namespace>>, batch: Batch)
      requires Valid() && zone.Some?
      modifies this, machine
      ensures Valid() && zone.Some? && old(steps) <= steps
      ensures AsSet(namespaces) == AsSet(old(zone).value) ==>
                machine.table == old(machine.table) && machine.record == old(machine.record) && applied == old(applied)
      ensures AsSet(namespaces) != AsSet(old(zone).value) ==>
                && zone == Some(namespaces) && machine.record.Some?
                && Intent(machine.record) == Intent(old(machine.record)) + AsSet(namespaces)
                && machine.record.value.confirmed == applied
                && (namespaces == [] ==> machine.table == old(machine.table))
                && (namespaces != [] ==>
                      var script := PlanApply(namespaces, servers, ReadPresent(reading)).script;
                      machine.table == ExecAll(old(machine.table), script[..Executed(script, batch)]))
    {
      var before := zone.value;
      if AsSet(namespaces) == AsSet(before) {
        return;
      }
      AlwaysAccounted();
      var state := if machine.record.Some? then machine.record.value else StartState(pid, servers);
      var widened := state.(intent := Union(state.intent, namespaces));
      machine.record := Some(widened);
      DidOne(Claim.Reload(servers, namespaces));
      zone := Some(namespaces);
      ApplyPolicy(namespaces, widened, reading, batch);
    }

    /** Remove what is remembered, then the record. */
    method Stop(batch: Batch)
      requires Valid() && zone.Some?
      modifies this, machine
      ensures Valid() && zone.None? && machine.record.None? && old(steps) <= steps
      ensures var script := PlanRemove(old(applied)).script;
              machine.table == ExecAll(old(machine.table), script[..Executed(script, batch)])
      ensures batch.Completes? ==> Ours(machine.table) == Ours(old(machine.table)) - AsSet(old(applied))
      ensures Foreign(machine.table) == Foreign(old(machine.table))
    {
      ghost var serving := sys;
      ghost var done := true;
      RunIsSafe(Foreign(origin.table), origin, steps);
      if applied != [] {
        var ok := policy.Remove(applied, batch);
        done := ok;
        if ok {
          applied := [];
        }
      }
      var state := machine.record;
      if state.Some? {
        machine.record := Some(state.value.(cleanShutdown := true, confirmed := []));
      }
      machine.record := None;
      ghost var script := PlanRemove(old(applied)).script;
      StopRuns(serving, Executed(script, batch), done);
      Did(StopStepsTo(old(applied), Executed(script, batch), done));
      RemovedSoFar(old(machine.table), old(applied), batch);
      assert old(applied) == [] ==> script == [] && script[..Executed(script, batch)] == [];
      zone := None;
    }

    /** What holds of the machine whenever the runner is between two calls, however the calls
        went: the foreign rules are untouched, and every rule of ours is in the record or was
        there when a record was deleted. */
    lemma AlwaysAccounted()
      requires Valid()
      ensures Foreign(machine.table) == Foreign(origin.table)
      ensures Ours(machine.table) <= Intent(machine.record) + sys.orphans
      ensures zone.Some? ==> machine.record.Some? && machine.record.value.pid == pid
                             && AsSet(applied) <= Intent(machine.record)
    {
      RunIsSafe(Foreign(origin.table), origin, steps);
    }
  }

  function RunExecs(n: nat): seq<Step> { seq(n, i => Claim.Exec(true)) }

  lemma {:induction false} ExecsPrefix(s: Sys, n: nat)
    requires s.phase.Applying? && n <= |s.phase.script|
    ensures Run(s, RunExecs(n))
            == s.(table := ExecAll(s.table, s.phase.script[..n]),
                  phase := Applying(s.phase.state, s.phase.zone, s.phase.script[n..]))
  {
    if n == 0 {
      assert s.phase.script[0..] == s.phase.script;
    } else {
      ExecsPrefix(s, n - 1);
      assert RunExecs(n)[..n - 1] == RunExecs(n - 1);
      var script := s.phase.script;
      assert script[n - 1..][1..] == script[n..];
      assert script[..n] == script[..n - 1] + [script[n - 1]];
      ExecAllAppend(s.table, script[..n - 1], [script[n - 1]]);
    }
  }

  lemma PlanRuns(s: Sys, servers: seq<string>, present: seq<Namespace>, n: nat)
    requires s.phase.Intended? && s.phase.zone != []
    requires n <= |PlanApply(s.phase.zone, servers, present).script|
    ensures var script := PlanApply(s.phase.zone, servers, present).script;
            Run(s, [MakePlan(servers, present)] + RunExecs(n))
            == s.(table := ExecAll(s.table, script[..n]),
                  phase := Applying(s.phase.state, s.phase.zone, script[n..]))
  {
    var script := PlanApply(s.phase.zone, servers, present).script;
    MakePlanRuns(s, servers, present);
    RunInTwo(s, [MakePlan(servers, present)], RunExecs(n));
    ExecsPrefix(s.(phase := Applying(s.phase.state, s.phase.zone, script)), n);
  }

  lemma MakePlanRuns(s: Sys, servers: seq<string>, present: seq<Namespace>)
    requires s.phase.Intended? && s.phase.zone != []
    ensures Run(s, [MakePlan(servers, present)])
            == s.(phase := Applying(s.phase.state, s.phase.zone, PlanApply(s.phase.zone, servers, present).script))
  {
    RunTwo(s, MakePlan(servers, present), Bind);
  }

  function ApplySteps(servers: seq<string>, present: seq<Namespace>, n: nat, ok: bool): seq<Step> {
    [MakePlan(servers, present)] + RunExecs(n) + [if ok then ApplyDone else ApplyFails, Confirm]
  }

  /** From the recorded intent to serving, with `n` statements executed. */
  lemma ApplyRuns(s: Sys, servers: seq<string>, present: seq<Namespace>, n: nat, ok: bool)
    requires s.phase.Intended? && s.phase.zone != []
    requires n <= |PlanApply(s.phase.zone, servers, present).script|
    requires ok ==> n == |PlanApply(s.phase.zone, servers, present).script|
    ensures var applied := if ok then s.phase.zone else [];
            Run(s, ApplySteps(servers, present, n, ok))
            == s.(table := ExecAll(s.table, PlanApply(s.phase.zone, servers, present).script[..n]),
                  record := Some(s.phase.state.(confirmed := applied)),
                  phase := Serving(s.phase.state.pid, s.phase.zone, applied))
  {
    var first := [MakePlan(servers, present)] + RunExecs(n);
    PlanRuns(s, servers, present, n);
    RunInTwo(s, first, [if ok then ApplyDone else ApplyFails, Confirm]);
    FinishRuns(Run(s, first), ok);
  }

  lemma FinishRuns(s: Sys, ok: bool)
    requires s.phase.Applying? && (ok ==> s.phase.script == [])
    ensures var applied := if ok then s.phase.zone else [];
            Run(s, [if ok then ApplyDone else ApplyFails, Confirm])
            == s.(record := Some(s.phase.state.(confirmed := applied)),
                  phase := Serving(s.phase.state.pid, s.phase.zone, applied))
  {
    RunTwo(s, if ok then ApplyDone else ApplyFails, Confirm);
  }

  function StopStepsTo(applied: seq<Namespace>, n: nat, ok: bool): seq<Step> {
    [BeginStop] + (if applied == [] then [] else RunRemovals(n) + [if ok then RemovalDone else RemovalFails])
    + [MarkClean, ClearRecord(true)]
  }

  lemma RemovalRuns(s: Sys, n: nat, ok: bool)
    requires s.phase.Removing? && n <= |s.phase.script| && (ok ==> n == |s.phase.script|)
    ensures Run(s, RunRemovals(n) + [if ok then RemovalDone else RemovalFails])
            == s.(table := ExecAll(s.table, s.phase.script[..n]), phase := Closing)
  {
    var last := if ok then RemovalDone else RemovalFails;
    RemovalsPrefix(s, n);
    RunInTwo(s, RunRemovals(n), [last]);
    RunTwo(Run(s, RunRemovals(n)), last, last);
  }

  /** A whole shutdown with `n` removals executed. */
  lemma StopRuns(s: Sys, n: nat, ok: bool)
    requires s.phase.Serving? && s.record.Some? && n <= |PlanRemove(s.phase.applied).script|
    requires ok && s.phase.applied != [] ==> n == |PlanRemove(s.phase.applied).script|
    ensures var table := ExecAll(s.table, PlanRemove(s.phase.applied).script[..n]);
            Run(s, StopStepsTo(s.phase.applied, n, ok)) == Sys(table, None, Down, Ours(table))
  {
    var applied := s.phase.applied;
    var middle := if applied == [] then [] else RunRemovals(n) + [if ok then RemovalDone else RemovalFails];
    var begun := Next(s, BeginStop);
    RunTwo(s, BeginStop, BeginStop);
    RunInTwo(s, [BeginStop], middle);
    RunInTwo(s, [BeginStop] + middle, [MarkClean, ClearRecord(true)]);
    if applied == [] {
      assert PlanRemove(applied).script[..n] == [];
    } else {
      RemovalRuns(begun, n, ok);
    }
    ClosingRuns(Run(begun, middle));
  }

  lemma ClosingRuns(s: Sys)
    requires s.phase.Closing?
    ensures Run(s, [MarkClean, ClearRecord(true)]) == Sys(s.table, None, Down, Ours(s.table))
  {
    RunTwo(s, MarkClean, ClearRecord(true));
  }

  lemma RemovedSoFar(table: Table, names: seq<Namespace>, batch: Batch)
    ensures var script := PlanRemove(names).script;
            var after := ExecAll(table, script[..Executed(script, batch)]);
            && Foreign(after) == Foreign(table)
            && (batch.Completes? ==> Ours(after) == Ours(table) - AsSet(names))
  {
    var script := PlanRemove(names).script;
    ExecAllKeepsForeign(table, script[..Executed(script, batch)]);
    RemoveLeavesTheRest(table, names);
    WholePrefix(script);
  }

  // ---- the repair command ----

  /** Whether the one statement of the marker scan was executed. */
  predicate Scanned(scan: Batch) { scan.Completes? || scan.after > 0 }

  /** How many of the recorded removals were executed. */
  function RemovedOf(record: Option<NetState>, recorded: Batch): (n: nat) {
    Executed(PlanRemove(Recorded(record)).script, recorded)
  }

  /** The table after the recorded removal, as far as it got, and then the scan, if it ran. */
  function Repaired(table: Table, record: Option<NetState>, recorded: Batch, scan: Batch): Table {
    var middle := ExecAll(table, PlanRemove(Recorded(record)).script[..RemovedOf(record, recorded)]);
    if Scanned(scan) then Foreign(middle) else middle
  }

  /** The scan's failure is logged and swallowed, so the exit code cannot speak of it. */
  function RepairCode(record: Option<NetState>, recorded: Batch): int {
    if recorded.Fails? && Recorded(record) != [] then 5 else 0
  }

  /** The repair command: the recorded removal, then the marker scan, then the record goes. */
  method Repair(machine: Machine, recorded: Batch, scan: Batch) returns (code: int, removed: seq<Namespace>)
    modifies machine
    ensures machine.record.None?
    ensures machine.table == Repaired(old(machine.table), old(machine.record), recorded, scan)
    ensures code == RepairCode(old(machine.record), recorded)
    ensures removed == if code == 0 then Recorded(old(machine.record)) else []
    ensures OthersUntouched(old(machine.table), machine.table)
    ensures scan.Completes? ==> TheUnmarked(old(machine.table), machine.table)
    ensures code == 5 <==> recorded.Fails? && Remembered(old(machine.record)) != {}
    ensures code == 0 ==> (Ours(machine.table) == {} <==>
                           Scanned(scan) || Ours(old(machine.table)) <= Remembered(old(machine.record)))
  {
    code, removed := RemoveBothWays(machine, recorded, scan);
    RepairSummary(old(machine.table), old(machine.record), recorded, scan);
  }

  method RemoveBothWays(machine: Machine, recorded: Batch, scan: Batch) returns (code: int, removed: seq<Namespace>)
    modifies machine
    ensures machine.record.None?
    ensures machine.table == Repaired(old(machine.table), old(machine.record), recorded, scan)
    ensures code == RepairCode(old(machine.record), recorded)
    ensures removed == if code == 0 then Recorded(old(machine.record)) else []
  {
    var policy := new WindowsPolicy(machine);
    var failed;
    failed, removed := RemoveRecorded(policy, recorded);
    policy.RemoveAll(scan);
    machine.record := None;
    code := if failed then 5 else 0;
  }

  /** The first of the two: what the record names goes, as far as the batch gets. */
  method RemoveRecorded(policy: WindowsPolicy, recorded: Batch) returns (failed: bool, removed: seq<Namespace>)
    modifies policy.machine`table
    ensures var names := Recorded(policy.machine.record);
            && policy.machine.table
               == ExecAll(old(policy.machine.table), PlanRemove(names).script[..RemovedOf(policy.machine.record, recorded)])
            && failed == (recorded.Fails? && names != [])
            && removed == if failed then [] else names
  {
    removed, failed := [], false;
    var state := policy.machine.record;
    PlanIsEmptyExactly(Recorded(state));
    if state.Some? && (state.value.confirmed != [] || state.value.intent != [] || state.value.links != []) {
      var wanted := Dedup(state.value.confirmed + state.value.intent);
      var ok := policy.Remove(wanted, recorded);
      if ok {
        removed := removed + wanted;
      } else {
        failed := true;
      }
    } else {
      NothingRecorded(state);
      assert PlanRemove([]).script[..RemovedOf(state, recorded)] == [];
    }
  }

  /** Every namespace the record names. */
  function Remembered(record: Option<NetState>): set<Namespace> {
    if record.Some? then AsSet(record.value.confirmed) + AsSet(record.value.intent) else {}
  }

  lemma RecordedIsRemembered(record: Option<NetState>)
    ensures AsSet(Recorded(record)) == Remembered(record)
    ensures Recorded(record) == [] <==> Remembered(record) == {}
  {
    if record.Some? {
      RecordedIsBoth(record);
    }
    if Recorded(record) != [] {
      assert Recorded(record)[0] in AsSet(Recorded(record));
    }
  }

  lemma RepairSummary(table: Table, record: Option<NetState>, recorded: Batch, scan: Batch)
    ensures var after := Repaired(table, record, recorded, scan);
            && OthersUntouched(table, after)
            && (scan.Completes? ==> TheUnmarked(table, after))
            && (RepairCode(record, recorded) == 5 <==> recorded.Fails? && Remembered(record) != {})
            && (RepairCode(record, recorded) == 0 ==>
                  (Ours(after) == {} <==> Scanned(scan) || Ours(table) <= Remembered(record)))
  {
    RecordedIsRemembered(record);
    PrefixRemoves(table, Recorded(record), RemovedOf(record, recorded));
    RepairLeavesNothingExactly(table, record, recorded, scan);
    SameForeignSameOthers(table, Repaired(table, record, recorded, scan));
    ForeignIsTheUnmarked(table);
    if RepairCode(record, recorded) == 0 {
      ZeroExitExactly(table, record, recorded, scan);
    }
  }

  lemma PlanIsEmptyExactly(names: seq<Namespace>)
    ensures PlanRemove(names).script == [] <==> names == []
  {
    if names != [] {
      assert names[0] in Dedup(names);
    }
  }

  /** A prefix of a removal script removes a prefix of the names. */
  lemma PrefixRemoves(table: Table, names: seq<Namespace>, n: nat)
    requires n <= |PlanRemove(names).script|
    ensures n <= |Dedup(names)|
    ensures Ours(ExecAll(table, PlanRemove(names).script[..n])) == Ours(table) - AsSet(Dedup(names)[..n])
    ensures Foreign(ExecAll(table, PlanRemove(names).script[..n])) == Foreign(table)
  {
    var targets := Dedup(names);
    assert PlanRemove(names).script[..n] == Removals(targets[..n]);
    ExecRemovals(table, targets[..n]);
    ExecAllKeepsForeign(table, PlanRemove(names).script[..n]);
  }

  /** What a repair leaves: no rule of ours if and only if the scan ran, or the recorded removals
      that were executed name them all; and every foreign rule, always. */
  lemma RepairLeavesNothingExactly(table: Table, record: Option<NetState>, recorded: Batch, scan: Batch)
    ensures Foreign(Repaired(table, record, recorded, scan)) == Foreign(table)
    ensures RemovedOf(record, recorded) <= |Dedup(Recorded(record))|
    ensures Ours(Repaired(table, record, recorded, scan)) == {} <==>
            Scanned(scan) || Ours(table) <= AsSet(Dedup(Recorded(record))[..RemovedOf(record, recorded)])
  {
    var names, n := Recorded(record), RemovedOf(record, recorded);
    PrefixRemoves(table, names, n);
    var middle := ExecAll(table, PlanRemove(names).script[..n]);
    OnlyForeignLeft(table, middle);
    var gone := AsSet(Dedup(names)[..n]);
    if Ours(table) - gone == {} {
      forall x | x in Ours(table) ensures x in gone {
        assert x !in Ours(table) - gone;
      }
    }
  }

  /** A zero exit means no more than that the recorded removal did not fail: the machine is
      clean if and only if the scan ran as well, or all our rules were recorded. */
  lemma ZeroExitExactly(table: Table, record: Option<NetState>, recorded: Batch, scan: Batch)
    requires RepairCode(record, recorded) == 0
    ensures Ours(Repaired(table, record, recorded, scan)) == {} <==>
            Scanned(scan) || Ours(table) <= AsSet(Recorded(record))
    ensures (record.Some? ==> AsSet(record.value.confirmed) <= Intent(record)) ==>
            (Ours(Repaired(table, record, recorded, scan)) == {} <==> Scanned(scan) || Ours(table) <= Intent(record))
  {
    RepairLeavesNothingExactly(table, record, recorded, scan);
    var names := Recorded(record);
    PlanIsEmptyExactly(names);
    assert |PlanRemove(names).script| == |Dedup(names)|;
    WholePrefix(Dedup(names));
    assert AsSet(Dedup(names)) == AsSet(names);
    RecordedIsTheIntent(record);
  }

  lemma RecordedIsTheIntent(record: Option<NetState>)
    ensures (record.Some? ==> AsSet(record.value.confirmed) <= Intent(record)) ==> AsSet(Recorded(record)) == Intent(record)
  {
    RecordedHoldsIntent(record);
    if record.Some? && AsSet(record.value.confirmed) <= Intent(record) {
      forall x | x in AsSet(Recorded(record)) ensures x in Intent(record) {
        assert x in AsSet(record.value.confirmed) || x in record.value.intent;
      }
    }
  }

  /** So it can be zero over rules of ours: no record, and a scan that fails. */
  lemma ZeroExitCanMislead(servers: seq<string>)
    ensures RepairCode(None, Completes) == 0
    ensures Ours(Repaired([Rule(true, "a.test", servers)], None, Completes, Fails(0))) == {"a.test"}
  {
    var table := [Rule(true, "a.test", servers)];
    PrefixRemoves(table, [], 0);
    assert PlanRemove(Recorded(None)).script == [];
    assert "a.test" in Ours(table);
  }

  lemma NothingRecorded(record: Option<NetState>)
    requires record.Some? ==> record.value.confirmed == [] && record.value.intent == []
    ensures Recorded(record) == []
  {
  }

  lemma OnlyForeignLeft(table: Table, between: Table)
    requires Foreign(between) == Foreign(table)
    ensures Ours(Foreign(between)) == {} && Foreign(Foreign(between)) == Foreign(table)
  {
    ForeignHasNone(between);
  }
}
