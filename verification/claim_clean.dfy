/** The protocol when nothing goes wrong. */
module ClaimClean {
  import opened Prelude
  import opened Nrpt
  import opened NetStates
  import opened Claim

  /** A step of a run in which every apply and removal succeeds, the table is read truthfully,
      every reload keeps at least one namespace, and nothing crashes. */
  ghost predicate CleanStep(s: Sys, step: Step) {
    match step
    case Boot(_, removed) => removed
    case MakePlan(_, present) => AsSet(present) == Ours(s.table)
    case Exec(happened) => happened
    case ExecRemoval(happened) => happened
    case Reload(_, zone) => zone != []
    case ClearRecord(cleared) => cleared
    case ApplyFails => false
    case RemovalFails => false
    case Crash => false
    case RepairExec(_) => false
    case RepairClear => false
    case _ => true
  }

  ghost predicate CleanRun(s: Sys, steps: seq<Step>) {
    steps == [] ||
    (CleanRun(s, steps[..|steps| - 1]) && CleanStep(Run(s, steps[..|steps| - 1]), steps[|steps| - 1]))
  }

  /** Where the claimed namespaces stand, phase by phase. */
  ghost predicate InStep(s: Sys) {
    match s.phase
    case Down => Ours(s.table) == {} && s.record.None?
    case Fresh(_) => Ours(s.table) == {} && s.record.None?
    case Bound(_) => Ours(s.table) == {} && s.record.None?
    case Intended(_, zone) => zone == [] ==> Ours(s.table) == {}
    case Applying(_, zone, script) => Ours(ExecAll(s.table, script)) == AsSet(zone)
    case Settled(_, zone, applied) => Ours(s.table) == AsSet(zone) && applied == zone
    case Serving(_, zone, applied) => Ours(s.table) == AsSet(zone) && applied == zone
    case Removing(_, script) => Ours(ExecAll(s.table, script)) == {}
    case Closing => Ours(s.table) == {}
    case Closed => Ours(s.table) == {}
  }

  lemma StepStaysInStep(s: Sys, step: Step)
    requires InStep(s) && CleanStep(s, step)
    ensures InStep(Next(s, step))
  {
    match step
    case MakePlan(servers, present) =>
      if s.phase.Intended? { ApplyReachesTheDesired(s.table, s.phase.zone, servers, present); }
    case BeginStop =>
      if s.phase.Serving? { RemoveLeavesTheRest(s.table, s.phase.applied); }
    case _ =>
  }

  lemma {:induction false} RunStaysInStep(s: Sys, steps: seq<Step>)
    requires InStep(s) && CleanRun(s, steps)
    ensures InStep(Run(s, steps))
  {
    if steps != [] {
      RunStaysInStep(s, steps[..|steps| - 1]);
      StepStaysInStep(Run(s, steps[..|steps| - 1]), steps[|steps| - 1]);
    }
  }

  /** In a clean run, whenever the daemon serves, the claimed namespaces are exactly the
      zone's and planning again finds nothing to do; and once it is down there is no rule of
      ours and no record. */
  lemma CleanRunClaimsExactly(table: Table, steps: seq<Step>)
    requires Ours(table) == {} && CleanRun(Sys(table, None, Down, {}), steps)
    ensures var s := Run(Sys(table, None, Down, {}), steps);
            && Foreign(s.table) == Foreign(table)
            && (s.phase.Serving? ==>
                  && Ours(s.table) == AsSet(s.phase.zone)
                  && forall present, servers :: AsSet(present) == Ours(s.table) ==>
                       PlanApply(s.phase.zone, servers, present).Empty())
            && (s.phase.Down? ==> Ours(s.table) == {} && s.record.None?)
  {
    var start := Sys(table, None, Down, {});
    var s := Run(start, steps);
    RunStaysInStep(start, steps);
    RunIsSafe(Foreign(table), start, steps);
    if s.phase.Serving? {
      forall present, servers | AsSet(present) == Ours(s.table)
        ensures PlanApply(s.phase.zone, servers, present).Empty()
      {
        ApplyReachesTheDesired(s.table, s.phase.zone, servers, present);
      }
    }
  }
}
