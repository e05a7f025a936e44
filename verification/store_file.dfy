/** The list of records and the file that holds it. */
module StoreFile {
  import opened Prelude
  import opened Texts
  import opened Names
  import opened Model
  import opened Store
  import opened Reconciliation
  import opened Fixpoint
  import opened StoreHistory

  ghost predicate AllStorable(tx: Text, domains: seq<Domain>) {
    forall d <- domains :: Storable(tx, d)
  }

  lemma {:induction false} LoadedIsShorter(tx: Text, entries: seq<Json>, supply: Supply)
    ensures |LoadEntries(tx, entries, supply)| <= |entries|
  {
    if entries != [] {
      LoadedIsShorter(tx, entries[..|entries| - 1], supply);
    }
  }

  lemma DictsOfPrefix(domains: seq<Domain>)
    requires domains != []
    ensures Dicts(domains)[..|domains| - 1] == Dicts(domains[..|domains| - 1])
  {
  }

  lemma SnocEqual<T>(a: seq<T>, x: T, b: seq<T>, y: T)
    ensures a + [x] == b + [y] <==> a == b && x == y
  {
    if a + [x] == b + [y] {
      assert (a + [x])[..|a|] == a && (b + [y])[..|b|] == b;
      assert (a + [x])[|a|] == x && (b + [y])[|b|] == y;
    }
  }

  /** What is loaded is what the entries are read as, each by itself: an unusable one costs nothing but
      itself. */
  lemma {:induction false} LoadedExactly(tx: Text, entries: seq<Json>, supply: Supply, d: Domain)
    ensures d in LoadEntries(tx, entries, supply)
            <==> exists i :: 0 <= i < |entries| && FromDict(tx, entries[i], supply.ids(i), supply.now) == Some(d)
  {
    if entries != [] {
      var n := |entries| - 1;
      LoadedExactly(tx, entries[..n], supply, d);
    }
  }

  lemma StorablePrefix(tx: Text, domains: seq<Domain>)
    requires domains != []
    ensures var n := |domains| - 1; AllStorable(tx, domains) <==> AllStorable(tx, domains[..n]) && Storable(tx, domains[n])
  {
    SplitLast(domains);
  }

  /** The entries of a written list read back as the list exactly when every record is storable. */
  lemma {:induction false} EntriesReadBack(tx: Text, domains: seq<Domain>, supply: Supply)
    requires supply.Lawful()
    ensures LoadEntries(tx, Dicts(domains), supply) == domains <==> AllStorable(tx, domains)
  {
    if domains != [] {
      var n := |domains| - 1;
      EntriesReadBack(tx, domains[..n], supply);
      StorablePrefix(tx, domains);
      DictsOfPrefix(domains);
      RoundTripExactly(tx, domains[n], supply.ids(n), supply.now);
      LoadedIsShorter(tx, Dicts(domains[..n]), supply);
      var loaded := LoadEntries(tx, Dicts(domains[..n]), supply);
      var last := FromDict(tx, ToDict(domains[n]), supply.ids(n), supply.now);
      SplitLast(domains);
      if last.Some? {
        SnocEqual(loaded, last.value, domains[..n], domains[n]);
      }
    }
  }

  lemma WrittenReadsBack(tx: Text, domains: seq<Domain>, supply: Supply)
    requires supply.Lawful()
    ensures Load(tx, Written(domains), supply) == Snapshot(domains, false, false) <==> AllStorable(tx, domains)
  {
    EntriesReadBack(tx, domains, supply);
  }

  lemma {:induction false} LoadedAreStorable(tx: Text, entries: seq<Json>, supply: Supply)
    requires supply.Lawful()
    ensures AllStorable(tx, LoadEntries(tx, entries, supply))
  {
    if entries != [] {
      var n := |entries| - 1;
      LoadedAreStorable(tx, entries[..n], supply);
      LoadedIsStorable(tx, entries[n], supply.ids(n), supply.now);
    }
  }

  /** Two records are written alike only if they are one record, so a mutation that writes
      nothing has changed nothing. */
  lemma SameDictsSameRecords(a: seq<Domain>, b: seq<Domain>)
    requires Dicts(a) == Dicts(b)
    ensures a == b
  {
    forall i | 0 <= i < |a| ensures a[i] == b[i] {
      FieldsReadBack(a[i]);
      FieldsReadBack(b[i]);
      assert Dicts(a)[i] == Dicts(b)[i];
    }
  }

  // ---- runs at the level of the file ----

  function ApplyToFile(tx: Text, file: File, supply: Supply, op: Op): File {
    match op
    case Add(d) => Mutated(tx, file, supply, ds => AddChange(tx, ds, d))
    case Update(id, changes, now) => Mutated(tx, file, supply, ds => UpdateChange(ds, id, changes, now))
    case Toggle(id, enabled, now) => Mutated(tx, file, supply, ds => ToggleChange(ds, id, enabled, now))
    case Delete(id) => Mutated(tx, file, supply, ds => DeleteChange(ds, id))
    case Sync(source, wanted, clock) => Mutated(tx, file, supply, ds => ReconcileChange(tx, ds, source, wanted, clock))
  }

  function RunFile(tx: Text, supply: Supply, ops: seq<Op>): File {
    if |ops| == 0 then Missing
    else ApplyToFile(tx, RunFile(tx, supply, ops[..|ops| - 1]), supply, ops[|ops| - 1])
  }

  /** Records and edits the file can hold as they are. */
  ghost predicate StorableOp(tx: Text, op: Op) {
    match op
    case Add(d) => Storable(tx, d)
    case Update(_, changes, now) =>
      now != "" && changes.address != Some("")
      && (changes.name.Some? ==> changes.name.value != "" && tx.Strip(changes.name.value) == changes.name.value)
    case Toggle(_, _, now) => now != ""
    case Delete(_) => true
    case Sync(_, wanted, clock) => AllStorable(tx, wanted) && forall k :: clock(k) != ""
  }

  lemma ConsiderKeepsStorable(tx: Text, source: Source, mine: map<string, Domain>, domains: seq<Domain>,
                              result: ReconcileResult, c: Domain, now: string)
    requires AllStorable(tx, domains) && Storable(tx, c) && now != "" && forall o <- mine :: Storable(tx, mine[o])
    ensures var after := Consider(tx, source, mine, domains, result, c, now);
            after.Done? ==> AllStorable(tx, after.domains)
  {
    if c.owner in mine && Merged(mine[c.owner], c) != mine[c.owner] && IndexOf(domains, mine[c.owner]).Some? {
      var d := Merged(mine[c.owner], c).(updatedAt := now);
      assert Storable(tx, d);
      ReplaceKeepsStorable(tx, domains, IndexOf(domains, mine[c.owner]).value, d);
    }
  }

  lemma ReplaceKeepsStorable(tx: Text, domains: seq<Domain>, i: nat, d: Domain)
    requires AllStorable(tx, domains) && i < |domains| && Storable(tx, d)
    ensures AllStorable(tx, domains[i := d])
  {
  }

  lemma {:induction false} ConsiderAllKeepsStorable(tx: Text, source: Source, initial: seq<Domain>, wanted: seq<Domain>,
                                                    clock: nat -> string)
    requires AllStorable(tx, initial) && AllStorable(tx, wanted) && forall k :: clock(k) != ""
    ensures var after := ConsiderAll(tx, source, initial, wanted, clock);
            after.Done? ==> AllStorable(tx, after.domains)
  {
    if wanted != [] {
      var n := |wanted| - 1;
      ConsiderAllKeepsStorable(tx, source, initial, wanted[..n], clock);
      var before := ConsiderAll(tx, source, initial, wanted[..n], clock);
      if before.Done? {
        ConsiderKeepsStorable(tx, source, Mine(initial, source), before.domains, before.result, wanted[n], clock(n));
      }
    }
  }

  lemma ApplyKeepsStorable(tx: Text, domains: seq<Domain>, op: Op)
    requires AllStorable(tx, domains) && StorableOp(tx, op)
    ensures AllStorable(tx, Apply(tx, domains, op))
  {
    match op
    case Sync(source, wanted, clock) => ConsiderAllKeepsStorable(tx, source, domains, wanted, clock);
    case Add(_) =>
    case Update(id, changes, now) =>
      var i := IndexById(domains, id);
      if i.Some? {
        assert Storable(tx, domains[i.value]);
        assert Storable(tx, Touched(domains[i.value], changes, now));
      }
    case Toggle(id, enabled, now) =>
      var i := IndexById(domains, id);
      if i.Some? {
        assert Storable(tx, domains[i.value]);
        assert Storable(tx, domains[i.value].(enabled := Or(enabled, !domains[i.value].enabled), updatedAt := now));
      }
    case Delete(_) =>
  }

  lemma MutatedReadsBack<R>(tx: Text, file: File, supply: Supply, change: seq<Domain> -> Outcome<R>, domains: seq<Domain>)
    requires supply.Lawful() && Load(tx, file, supply) == Snapshot(domains, false, false)
    requires AllStorable(tx, OrUnchanged(domains, change(domains)))
    ensures Load(tx, Mutated(tx, file, supply, change), supply) == Snapshot(OrUnchanged(domains, change(domains)), false, false)
  {
    if change(domains).Done? {
      var after := change(domains).domains;
      WrittenReadsBack(tx, after, supply);
      if Dicts(domains) == Dicts(after) {
        SameDictsSameRecords(domains, after);
      }
    }
  }

  lemma ApplyToFileReadsBack(tx: Text, file: File, supply: Supply, op: Op, domains: seq<Domain>)
    requires supply.Lawful() && Load(tx, file, supply) == Snapshot(domains, false, false)
    requires AllStorable(tx, Apply(tx, domains, op))
    ensures Load(tx, ApplyToFile(tx, file, supply, op), supply) == Snapshot(Apply(tx, domains, op), false, false)
  {
    match op
    case Add(d) => MutatedReadsBack(tx, file, supply, ds => AddChange(tx, ds, d), domains);
    case Update(id, changes, now) => MutatedReadsBack(tx, file, supply, ds => UpdateChange(ds, id, changes, now), domains);
    case Toggle(id, enabled, now) => MutatedReadsBack(tx, file, supply, ds => ToggleChange(ds, id, enabled, now), domains);
    case Delete(id) => MutatedReadsBack(tx, file, supply, ds => DeleteChange(ds, id), domains);
    case Sync(source, wanted, clock) =>
      MutatedReadsBack(tx, file, supply, ds => ReconcileChange(tx, ds, source, wanted, clock), domains);
  }

  /** The file is a faithful home for the list: after any run of operations, each of which
      re-reads and perhaps rewrites it, it reads back as what the operations made of the list. */
  lemma {:induction false} FileHoldsTheRun(tx: Text, supply: Supply, ops: seq<Op>)
    requires supply.Lawful() && forall op <- ops :: StorableOp(tx, op)
    ensures Load(tx, RunFile(tx, supply, ops), supply) == Snapshot(Run(tx, ops), false, false)
    ensures AllStorable(tx, Run(tx, ops))
  {
    if |ops| > 0 {
      var n := |ops| - 1;
      FileHoldsTheRun(tx, supply, ops[..n]);
      ApplyKeepsStorable(tx, Run(tx, ops[..n]), ops[n]);
      ApplyToFileReadsBack(tx, RunFile(tx, supply, ops[..n]), supply, ops[n], Run(tx, ops[..n]));
    }
  }

  // ---- the second synchronisation at the level of the file ----

  /** Another id generator and another clock give the same records, but for the ids and stamps
      that the entries lack. */
  lemma {:induction false} LoadsAlike(tx: Text, entries: seq<Json>, a: Supply, b: Supply)
    ensures Alike(LoadEntries(tx, entries, a), LoadEntries(tx, entries, b))
  {
    if entries != [] {
      LoadsAlike(tx, entries[..|entries| - 1], a, b);
    }
  }

  /** A mutation that writes leaves a file that reads back as its result, also through another
      generator; one that does not write leaves the records as they were. */
  lemma MutationLeaves<R>(tx: Text, file: File, supply: Supply, supply': Supply, change: seq<Domain> -> Outcome<R>)
    requires supply.Lawful() && supply'.Lawful() && !TooNew(file)
    requires var domains := Load(tx, file, supply).domains;
             change(domains).Done? && (AllStorable(tx, domains) ==> AllStorable(tx, change(domains).domains))
    ensures var domains := Load(tx, file, supply).domains;
            var after := change(domains).domains;
            var left := Mutated(tx, file, supply, change);
            if Dicts(domains) != Dicts(after) || Load(tx, file, supply).migrated
            then Load(tx, left, supply') == Snapshot(after, false, false)
            else left == file && after == domains
  {
    var domains := Load(tx, file, supply).domains;
    if file.File? && file.entries.Some? {
      LoadedAreStorable(tx, file.entries.value, supply);
    }
    var after := change(domains).domains;
    WrittenReadsBack(tx, after, supply');
    if Dicts(domains) == Dicts(after) {
      SameDictsSameRecords(domains, after);
    }
  }

  lemma IdleChangeDoesNotWrite<R>(tx: Text, file: File, supply: Supply, change: seq<Domain> -> Outcome<R>)
    requires var snapshot := Load(tx, file, supply);
             !snapshot.readOnly && !snapshot.migrated
             && change(snapshot.domains).Done? && change(snapshot.domains).domains == snapshot.domains
    ensures Mutated(tx, file, supply, change) == file
  {
  }

  /** A settled file is left alone by another poll, read through whatever generator. */
  lemma SettledFileStays(tx: Text, file: File, source: Source, wanted: seq<Domain>, again: seq<Domain>,
                         clock: nat -> string, supply: Supply)
    requires var snapshot := Load(tx, file, supply);
             !snapshot.readOnly && !snapshot.migrated && Settled(tx, source, snapshot.domains, wanted)
    requires SameListing(wanted, again)
    ensures Mutated(tx, file, supply, ds => ReconcileChange(tx, ds, source, again, clock)) == file
  {
    SettledPassIsIdle(tx, source, Load(tx, file, supply).domains, wanted, again, clock);
    IdleChangeDoesNotWrite(tx, file, supply, ds => ReconcileChange(tx, ds, source, again, clock));
  }

  /** A poll that observes what the last one observed leaves the file alone, whatever ids and
      stamps it would have used. */
  lemma SecondSyncDoesNotWrite(tx: Text, file: File, source: Source, wanted: seq<Domain>, again: seq<Domain>,
                               clock: nat -> string, clock': nat -> string, supply: Supply, supply': Supply)
    requires supply.Lawful() && supply'.Lawful() && !TooNew(file)
    requires var domains := Load(tx, file, supply).domains;
             DistinctIds(domains) && FreshIds(domains, wanted) && OneEach(domains, source)
    requires AllFrom(source, wanted) && DistinctOwners(wanted) && SameListing(wanted, again)
    requires AllStorable(tx, wanted) && forall k :: clock(k) != ""
    ensures var once := Mutated(tx, file, supply, ds => ReconcileChange(tx, ds, source, wanted, clock));
            Mutated(tx, once, supply', ds => ReconcileChange(tx, ds, source, again, clock')) == once
  {
    var domains := Load(tx, file, supply).domains;
    var first := ds => ReconcileChange(tx, ds, source, wanted, clock);
    PassSettles(tx, source, domains, wanted, clock);
    if AllStorable(tx, domains) {
      ApplyKeepsStorable(tx, domains, Sync(source, wanted, clock));
    }
    MutationLeaves(tx, file, supply, supply', first);
    var once := Mutated(tx, file, supply, first);
    var after := first(domains).domains;
    if Dicts(domains) == Dicts(after) && !Load(tx, file, supply).migrated {
      if file.File? && file.entries.Some? {
        LoadsAlike(tx, file.entries.value, supply, supply');
      }
      SettledAlike(tx, source, domains, Load(tx, once, supply').domains, wanted);
    }
    SettledFileStays(tx, once, source, wanted, again, clock', supply');
  }
}
