/** Any number of processes mutating one store file: lock, re-read, change, atomic replace. */
module StoreProcesses {
  import opened Prelude
  import opened Texts
  import opened Model
  import opened Store

  type Pid = nat

  type Change = seq<Domain> -> Outcome<()>

  /** Where a process is in `mutate`. A ticket is handed out with the lock. */
  datatype Process =
    | Idle
    | Waiting(change: Change, supply: Supply)
    | Locked(change: Change, supply: Supply, ticket: nat)
    | Loaded(change: Change, supply: Supply, ticket: nat, snapshot: Snapshot)
    | Changed(change: Change, supply: Supply, ticket: nat, snapshot: Snapshot, after: seq<Domain>)
    | Leaving(ticket: nat, ok: bool)

  predicate Holds(p: Process) { p.Locked? || p.Loaded? || p.Changed? || p.Leaving? }

  /** One committed mutation. */
  datatype Commit = Commit(ticket: nat, change: Change, supply: Supply)

  /** One unlocked read: how many commits it came after, and what it saw. */
  datatype Seen = Seen(after: nat, supply: Supply, snapshot: Snapshot)

  datatype Sys = Sys(
    file: File,
    lock: Option<Pid>,
    processes: map<Pid, Process>,
    nextTicket: nat,
    log: seq<Commit>,          // history
    succeeded: set<nat>,       // tickets whose `mutate` returned normally
    observations: seq<Seen>)          // history of unlocked reads

  datatype Step =
    | Begin(p: Pid, change: Change, supply: Supply)
    | Acquire(p: Pid)
    | TimeOut(p: Pid)
    | ReRead(p: Pid)
    | RunChange(p: Pid)
    | Replace(p: Pid)
    | Release(p: Pid)
    | Crash(p: Pid)
    | Read(supply: Supply)

  function ProcessOf(s: Sys, p: Pid): Process { if p in s.processes then s.processes[p] else Idle }

  function Move(s: Sys, p: Pid, process: Process): Sys { s.(processes := s.processes[p := process]) }

  /** One step of the whole system; a step that is not possible changes nothing. */
  function Next(tx: Text, s: Sys, step: Step): Sys {
    match step
    case Begin(p, change, supply) =>
      if ProcessOf(s, p).Idle? then Move(s, p, Waiting(change, supply)) else s
    case Acquire(p) =>
      var q := ProcessOf(s, p);
      if q.Waiting? && s.lock.None? then
        Move(s, p, Locked(q.change, q.supply, s.nextTicket)).(lock := Some(p), nextTicket := s.nextTicket + 1)
      else s
    case TimeOut(p) =>
      if ProcessOf(s, p).Waiting? then Move(s, p, Idle) else s
    case ReRead(p) =>
      var q := ProcessOf(s, p);
      if q.Locked? then Move(s, p, Loaded(q.change, q.supply, q.ticket, Load(tx, s.file, q.supply))) else s
    case RunChange(p) =>
      var q := ProcessOf(s, p);
      if !q.Loaded? then s
      else if q.snapshot.readOnly || q.change(q.snapshot.domains).Raised? then Move(s, p, Leaving(q.ticket, false))
      else
        var after := q.change(q.snapshot.domains).domains;
        if Dicts(q.snapshot.domains) != Dicts(after) || q.snapshot.migrated then
          Move(s, p, Changed(q.change, q.supply, q.ticket, q.snapshot, after))
        else
          Move(s, p, Leaving(q.ticket, true)).(log := s.log + [Commit(q.ticket, q.change, q.supply)])
    case Replace(p) =>
      var q := ProcessOf(s, p);
      if q.Changed? then
        Move(s, p, Leaving(q.ticket, true)).(file := Written(q.after), log := s.log + [Commit(q.ticket, q.change, q.supply)])
      else s
    case Release(p) =>
      var q := ProcessOf(s, p);
      if q.Leaving? then
        Move(s, p, Idle).(lock := None, succeeded := s.succeeded + if q.ok then {q.ticket} else {})
      else s
    case Crash(p) =>
      // the operating system drops a dead process's lock
      Move(s, p, Idle).(lock := if s.lock == Some(p) then None else s.lock)
    case Read(supply) =>
      s.(observations := s.observations + [Seen(|s.log|, supply, Load(tx, s.file, supply))])
  }

  function Initial(file: File): Sys { Sys(file, None, map[], 0, [], {}, []) }

  function Run(tx: Text, file: File, steps: seq<Step>): Sys {
    if |steps| == 0 then Initial(file) else Next(tx, Run(tx, file, steps[..|steps| - 1]), steps[|steps| - 1])
  }

  /** The commits applied one after the other, each to the file the previous one left. */
  function Replay(tx: Text, file: File, log: seq<Commit>): File {
    if |log| == 0 then file
    else
      var last := log[|log| - 1];
      Mutated(tx, Replay(tx, file, log[..|log| - 1]), last.supply, last.change)
  }

  predicate TicketsAscend(log: seq<Commit>) {
    forall i, j :: 0 <= i < j < |log| ==> log[i].ticket < log[j].ticket
  }

  predicate Logged(log: seq<Commit>, ticket: nat) {
    exists i :: 0 <= i < |log| && log[i].ticket == ticket
  }

  /** What one process may count on: the lock if and only if it holds a ticket, and, while it
      holds it, that what it has read is still what the file says. */
  ghost predicate ProcessOk(tx: Text, s: Sys, p: Pid) {
    var q := ProcessOf(s, p);
    && (Holds(q) <==> s.lock == Some(p))
    && (Holds(q) ==> q.ticket < s.nextTicket)
    && (Holds(q) && !q.Leaving? ==> forall c <- s.log :: c.ticket < q.ticket)
    && (q.Loaded? ==> q.snapshot == Load(tx, s.file, q.supply))
    && (q.Changed? ==>
          && q.snapshot == Load(tx, s.file, q.supply) && !q.snapshot.readOnly
          && q.change(q.snapshot.domains).Done? && q.change(q.snapshot.domains).domains == q.after
          && (Dicts(q.snapshot.domains) != Dicts(q.after) || q.snapshot.migrated))
    && (q.Leaving? && q.ok ==> Logged(s.log, q.ticket))
  }

  ghost predicate HistoryOk(tx: Text, file: File, s: Sys) {
    && s.file == Replay(tx, file, s.log)
    && TicketsAscend(s.log)
    && (forall c <- s.log :: c.ticket < s.nextTicket)
    && (forall t <- s.succeeded :: Logged(s.log, t))
  }

  ghost predicate Invariant(tx: Text, file: File, s: Sys) {
    HistoryOk(tx, file, s) && forall p: Pid :: ProcessOk(tx, s, p)
  }

  ghost predicate ReadOk(tx: Text, file: File, log: seq<Commit>, seen: Seen) {
    seen.after <= |log| && seen.snapshot == Load(tx, Replay(tx, file, log[..seen.after]), seen.supply)
  }

  ghost predicate ReadsOk(tx: Text, file: File, s: Sys) {
    && (forall i :: 0 <= i < |s.observations| ==> ReadOk(tx, file, s.log, s.observations[i]))
    && (forall i, j :: 0 <= i < j < |s.observations| ==> s.observations[i].after <= s.observations[j].after)
  }

  lemma OneMoreCommit(tx: Text, file: File, log: seq<Commit>, c: Commit)
    ensures Replay(tx, file, log + [c]) == Mutated(tx, Replay(tx, file, log), c.supply, c.change)
    ensures forall t :: Logged(log, t) ==> Logged(log + [c], t)
    ensures Logged(log + [c], c.ticket)
    ensures TicketsAscend(log) && (forall d <- log :: d.ticket < c.ticket) ==> TicketsAscend(log + [c])
  {
    assert (log + [c])[..|log|] == log;
    assert (log + [c])[|log|] == c;
    forall t | Logged(log, t) ensures Logged(log + [c], t) {
      var i :| 0 <= i < |log| && log[i].ticket == t;
      assert (log + [c])[i].ticket == t;
    }
  }

  /** A process that does not move is as sure of the file as it was, while nobody writes. */
  lemma BystanderStaysOk(tx: Text, s: Sys, s': Sys, r: Pid)
    requires ProcessOk(tx, s, r) && ProcessOf(s', r) == ProcessOf(s, r)
    requires s'.lock == Some(r) <==> s.lock == Some(r)
    requires s'.nextTicket >= s.nextTicket
    requires Holds(ProcessOf(s, r)) ==> s'.file == s.file && s'.log == s.log
    ensures ProcessOk(tx, s', r)
  {
  }

  lemma CommitKeepsHistory(tx: Text, file: File, s: Sys, c: Commit, s': Sys)
    requires HistoryOk(tx, file, s) && c.ticket < s.nextTicket && forall d <- s.log :: d.ticket < c.ticket
    requires s'.log == s.log + [c] && s'.file == Mutated(tx, s.file, c.supply, c.change)
    requires s'.nextTicket == s.nextTicket && s'.succeeded == s.succeeded
    ensures HistoryOk(tx, file, s') && Logged(s'.log, c.ticket)
  {
    OneMoreCommit(tx, file, s.log, c);
  }

  /** The lock holder logs its mutation and leaves, the file being what the mutation makes it. */
  lemma CommitKeepsInvariant(tx: Text, file: File, s: Sys, p: Pid, s': Sys)
    requires Invariant(tx, file, s)
    requires var q := ProcessOf(s, p);
             && (q.Loaded? || q.Changed?)
             && s'.processes == s.processes[p := Leaving(q.ticket, true)]
             && s'.log == s.log + [Commit(q.ticket, q.change, q.supply)]
             && s'.file == Mutated(tx, s.file, q.supply, q.change)
             && s'.nextTicket == s.nextTicket && s'.succeeded == s.succeeded && s'.lock == s.lock
    ensures Invariant(tx, file, s')
  {
    assert ProcessOk(tx, s, p);
    var q := ProcessOf(s, p);
    CommitKeepsHistory(tx, file, s, Commit(q.ticket, q.change, q.supply), s');
    forall r: Pid ensures ProcessOk(tx, s', r) {
      assert ProcessOk(tx, s, r);
      if r != p {
        BystanderStaysOk(tx, s, s', r);
      }
    }
  }

  /** A change that goes through commits what `mutate` makes of the file. */
  lemma CommittingStep(tx: Text, file: File, s: Sys, step: Step)
    requires Invariant(tx, file, s) && (step.RunChange? || step.Replace?)
    requires Next(tx, s, step).log != s.log
    ensures Invariant(tx, file, Next(tx, s, step))
  {
    assert ProcessOk(tx, s, step.p);
    CommitKeepsInvariant(tx, file, s, step.p, Next(tx, s, step));
  }

  /** A step that commits nothing leaves the file alone and moves one process. */
  lemma QuietStep(tx: Text, file: File, s: Sys, step: Step)
    requires Invariant(tx, file, s) && !step.Read?
    requires Next(tx, s, step).log == s.log
    ensures Invariant(tx, file, Next(tx, s, step))
  {
    var s' := Next(tx, s, step);
    assert ProcessOk(tx, s, step.p);
    forall r: Pid ensures ProcessOk(tx, s', r) {
      assert ProcessOk(tx, s, r);
      if r != step.p {
        BystanderStaysOk(tx, s, s', r);
      }
    }
  }

  lemma StepKeepsInvariant(tx: Text, file: File, s: Sys, step: Step)
    requires Invariant(tx, file, s)
    ensures Invariant(tx, file, Next(tx, s, step))
  {
    var s' := Next(tx, s, step);
    if step.Read? {
      forall r: Pid ensures ProcessOk(tx, s', r) {
        assert ProcessOk(tx, s, r);
        BystanderStaysOk(tx, s, s', r);
      }
    } else if s'.log == s.log {
      QuietStep(tx, file, s, step);
    } else {
      CommittingStep(tx, file, s, step);
    }
  }

  lemma PrefixReadsSame(tx: Text, file: File, log: seq<Commit>, c: Commit, seen: Seen)
    requires ReadOk(tx, file, log, seen)
    ensures ReadOk(tx, file, log + [c], seen)
  {
    assert (log + [c])[..seen.after] == log[..seen.after];
  }

  lemma StepKeepsReads(tx: Text, file: File, s: Sys, step: Step)
    requires HistoryOk(tx, file, s) && ReadsOk(tx, file, s)
    ensures ReadsOk(tx, file, Next(tx, s, step))
  {
    var s' := Next(tx, s, step);
    if step.Read? {
      assert s.log[..|s.log|] == s.log;
    } else if s'.log != s.log {
      var c := s'.log[|s.log|];
      assert s'.log == s.log + [c];
      forall i | 0 <= i < |s.observations| ensures ReadOk(tx, file, s'.log, s.observations[i]) {
        PrefixReadsSame(tx, file, s.log, c, s.observations[i]);
      }
    }
  }

  lemma {:induction false} RunKeepsInvariant(tx: Text, file: File, steps: seq<Step>)
    ensures Invariant(tx, file, Run(tx, file, steps)) && ReadsOk(tx, file, Run(tx, file, steps))
  {
    if |steps| > 0 {
      var n := |steps| - 1;
      RunKeepsInvariant(tx, file, steps[..n]);
      StepKeepsInvariant(tx, file, Run(tx, file, steps[..n]), steps[n]);
      StepKeepsReads(tx, file, Run(tx, file, steps[..n]), steps[n]);
    }
  }

  /** No update is lost: in every interleaving, with raising changes, timeouts and crashes
      anywhere, the file is the committed changes folded in the order the lock was taken, and
      every mutation that returned normally is among them. */
  lemma FileIsTheCommitsInLockOrder(tx: Text, file: File, steps: seq<Step>)
    ensures var s := Run(tx, file, steps);
            && s.file == Replay(tx, file, s.log)
            && TicketsAscend(s.log)
            && (forall t <- s.succeeded :: Logged(s.log, t))
            && (forall p: Pid, q: Pid :: Holds(ProcessOf(s, p)) && Holds(ProcessOf(s, q)) ==> p == q)
  {
    RunKeepsInvariant(tx, file, steps);
    var s := Run(tx, file, steps);
    forall p: Pid, q: Pid | Holds(ProcessOf(s, p)) && Holds(ProcessOf(s, q)) ensures p == q {
      assert ProcessOk(tx, s, p) && ProcessOk(tx, s, q);
    }
  }

  /** Every unlocked read sees a state some prefix of the commits made, and later reads never
      see an earlier prefix. */
  lemma ReadsSeeCommittedStates(tx: Text, file: File, steps: seq<Step>)
    ensures ReadsOk(tx, file, Run(tx, file, steps))
  {
    RunKeepsInvariant(tx, file, steps);
  }

  lemma {:induction false} ReplayKeepsNewer(tx: Text, file: File, log: seq<Commit>)
    requires TooNew(file)
    ensures Replay(tx, file, log) == file
  {
    if |log| > 0 {
      ReplayKeepsNewer(tx, file, log[..|log| - 1]);
    }
  }

  /** A file from a newer build is never written over, and no mutation of it succeeds. */
  lemma NewerFileNeverChanges(tx: Text, file: File, steps: seq<Step>)
    requires TooNew(file)
    ensures Run(tx, file, steps).file == file && Run(tx, file, steps).succeeded == {}
  {
    RunKeepsInvariant(tx, file, steps);
    ReplayKeepsNewer(tx, file, Run(tx, file, steps).log);
    NewerFileNoCommits(tx, file, steps);
    var s := Run(tx, file, steps);
    assert forall t :: !Logged(s.log, t);
  }

  lemma {:induction false} NewerFileNoCommits(tx: Text, file: File, steps: seq<Step>)
    requires TooNew(file)
    ensures |Run(tx, file, steps).log| == 0
  {
    if |steps| > 0 {
      var n := |steps| - 1;
      NewerFileNoCommits(tx, file, steps[..n]);
      RunKeepsInvariant(tx, file, steps[..n]);
      var s := Run(tx, file, steps[..n]);
      ReplayKeepsNewer(tx, file, s.log);
      forall p: Pid
        ensures !ProcessOf(s, p).Changed? && (ProcessOf(s, p).Loaded? ==> ProcessOf(s, p).snapshot.readOnly)
      {
        assert ProcessOk(tx, s, p);
      }
    }
  }

  /** Left alone, one process does to the file exactly what `DomainStore.Mutate` does. */
  lemma AloneIsMutate(tx: Text, s: Sys, p: Pid, change: Change, supply: Supply)
    requires s.lock.None? && ProcessOf(s, p).Idle?
    ensures var s1 := Next(tx, Next(tx, Next(tx, s, Begin(p, change, supply)), Acquire(p)), ReRead(p));
            var s2 := Next(tx, Next(tx, Next(tx, s1, RunChange(p)), Replace(p)), Release(p));
            && s2.file == Mutated(tx, s.file, supply, change)
            && s2.lock.None? && ProcessOf(s2, p).Idle?
            && s2.succeeded == s.succeeded
                               + if MutateResult(tx, s.file, supply, change).Success? then {s.nextTicket} else {}
  {
    var s1 := Next(tx, Next(tx, Next(tx, s, Begin(p, change, supply)), Acquire(p)), ReRead(p));
    var s2 := Next(tx, Next(tx, Next(tx, s1, RunChange(p)), Replace(p)), Release(p));
  }
}
