/** Whether a stop puts the machine back, told from the run that went before it. */
module ClaimStop {
  import opened Prelude
  import opened Nrpt
  import opened NetStates
  import opened Claim

  /** How the last claim of a run ended: the whole plan was executed, it returned because there
      was nothing to claim, or it failed. */
  datatype Ending = NoClaim | Succeeded | EmptyReturn | FailedApply

  /** The ending a step brings about, if it ends a claim. */
  function EndingOf(s: Sys, step: Step): Option<Ending> {
    match step
    case SkipEmpty => if s.phase.Intended? && s.phase.zone == [] then Some(EmptyReturn) else None
    case ApplyDone => if s.phase.Applying? && s.phase.script == [] then Some(Succeeded) else None
    case ApplyFails => if s.phase.Applying? then Some(FailedApply) else None
    case _ => None
  }

  function LastClaim(s: Sys, steps: seq<Step>): Ending {
    if steps == [] then NoClaim
    else
      var n := |steps| - 1;
      match EndingOf(Run(s, steps[..n]), steps[n])
      case Some(ending) => ending
      case None => LastClaim(s, steps[..n])
  }

  /** Runs in which the table is read truthfully and what a plan executes takes effect; applies
      may fail anywhere, zones may be empty, removals of leftovers may fail, and the daemon may
      crash, be repaired and start again at any time. */
  ghost predicate Truthful(s: Sys, steps: seq<Step>) {
    steps == [] || (
      var n := |steps| - 1;
      && Truthful(s, steps[..n])
      && match steps[n]
         case MakePlan(_, present) => AsSet(present) == Ours(Run(s, steps[..n]).table)
         case Exec(happened) => happened
         case _ => true
    )
  }

  /** What the daemon remembers, by how its last claim ended. */
  ghost predicate Remembers(s: Sys, ending: Ending) {
    match s.phase
    case Applying(_, zone, script) => Ours(ExecAll(s.table, script)) == AsSet(zone)
    case Settled(_, _, applied) =>
      if ending.Succeeded? then Ours(s.table) == AsSet(applied) else ending.FailedApply? && applied == []
    case Serving(_, _, applied) =>
      if ending.Succeeded? then Ours(s.table) == AsSet(applied)
      else (ending.FailedApply? || ending.EmptyReturn?) && applied == []
    case _ => true
  }

  lemma StepRemembers(s: Sys, step: Step, ending: Ending)
    requires Remembers(s, ending)
    requires step.MakePlan? ==> AsSet(step.present) == Ours(s.table)
    requires step.Exec? ==> step.happened
    ensures Remembers(Next(s, step), match EndingOf(s, step) case Some(e) => e case None => ending)
  {
    if step.MakePlan? && s.phase.Intended? {
      ApplyReachesTheDesired(s.table, s.phase.zone, step.servers, step.present);
    }
  }

  lemma {:induction false} RunRemembers(s: Sys, steps: seq<Step>)
    requires s.phase.Down? && Truthful(s, steps)
    ensures Remembers(Run(s, steps), LastClaim(s, steps))
  {
    if steps != [] {
      var n := |steps| - 1;
      RunRemembers(s, steps[..n]);
      StepRemembers(Run(s, steps[..n]), steps[n], LastClaim(s, steps[..n]));
    }
  }

  /** From any machine and over any such run: a complete shutdown leaves no rule of ours if and
      only if the last claim neither returned on an empty zone nor failed while rules of ours
      were in the table. Foreign rules stay, and the record goes, in every case. */
  lemma StopCleansExactly(table: Table, record: Option<NetState>, steps: seq<Step>)
    requires Truthful(Sys(table, record, Down, Ours(table)), steps)
    requires Run(Sys(table, record, Down, Ours(table)), steps).phase.Serving?
    ensures var start := Sys(table, record, Down, Ours(table));
            var serving := Run(start, steps);
            var stopped := Run(serving, StopSteps(serving.phase.applied));
            var last := LastClaim(start, steps);
            && stopped.phase.Down? && stopped.record.None? && Foreign(stopped.table) == Foreign(table)
            && (Ours(stopped.table) == {} <==>
                  !((last.EmptyReturn? || last.FailedApply?) && Ours(serving.table) != {}))
  {
    var start := Sys(table, record, Down, Ours(table));
    var serving := Run(start, steps);
    RunRemembers(start, steps);
    RunIsSafe(Foreign(table), start, steps);
    StopLeavesTheForgotten(serving);
  }
}
