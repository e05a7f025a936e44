/** What each operation of the store leaves in the file and answers, told record by record. */
module StoreEffects {
  import opened Prelude
  import opened Texts
  import opened Names
  import opened Model
  import opened Store
  import opened Reconciliation
  import opened Fixpoint
  import opened StoreHistory
  import opened StoreFile
  import opened Takeover

  /** A file this build may write. */
  predicate Usable(file: File) { file.File? && file.schema.Some? ==> file.schema.value <= 1 }

  predicate Taken(tx: Text, domains: seq<Domain>, name: string) {
    exists d :: d in domains && Normalise(tx, d.name) == Normalise(tx, name)
  }

  /** The first record with the id. */
  predicate FirstWithId(domains: seq<Domain>, id: string, i: nat) {
    i < |domains| && domains[i].id == id && forall j :: 0 <= j < i ==> domains[j].id != id
  }

  predicate NoneWithId(domains: seq<Domain>, id: string) { forall d <- domains :: d.id != id }

  /** A newer file is refused by every operation and stays as it is. */
  lemma NewerIsRefused<R>(tx: Text, file: File, supply: Supply, change: seq<Domain> -> Outcome<R>)
    requires !Usable(file)
    ensures MutateResult(tx, file, supply, change) == Failure(StoreReadOnly) && Mutated(tx, file, supply, change) == file
  {
  }

  lemma LoadedStorable(tx: Text, file: File, supply: Supply)
    requires supply.Lawful()
    ensures AllStorable(tx, Load(tx, file, supply).domains)
  {
    if file.File? && file.entries.Some? {
      LoadedAreStorable(tx, file.entries.value, supply);
    }
  }

  /** A change that answers `result` and leaves `after`: the file reads back as `after`, or it was not
      written because nothing changed, and then `after` is what was read from it. */
  lemma ChangeIsKept<R>(tx: Text, file: File, supply: Supply, change: seq<Domain> -> Outcome<R>, after: seq<Domain>, result: R)
    requires supply.Lawful() && Usable(file)
    requires change(Load(tx, file, supply).domains) == Done(after, result) && AllStorable(tx, after)
    ensures MutateResult(tx, file, supply, change) == Success(result)
    ensures Load(tx, Mutated(tx, file, supply, change), supply).domains == after
  {
    MutationLeaves(tx, file, supply, supply, change);
  }

  lemma RefusalIsKept<R>(tx: Text, file: File, supply: Supply, change: seq<Domain> -> Outcome<R>, error: StoreError)
    requires Usable(file) && change(Load(tx, file, supply).domains) == Raised(error)
    ensures MutateResult(tx, file, supply, change) == Failure(error) && Mutated(tx, file, supply, change) == file
  {
  }

  /** An add is refused if and only if the name is taken, and then nothing is written. Otherwise the
      record is stored after the others, and reads back if and only if it is one a file can hold. */
  lemma AddAdds(tx: Text, file: File, supply: Supply, d: Domain)
    requires supply.Lawful() && Usable(file)
    ensures var before := Load(tx, file, supply).domains;
            var answer := MutateResult(tx, file, supply, ds => AddChange(tx, ds, d));
            var left := ApplyToFile(tx, file, supply, Op.Add(d));
            if Taken(tx, before, d.name)
            then answer == Failure(NameTaken(Normalise(tx, d.name))) && left == file
            else answer == Success(d)
                 && (Load(tx, left, supply).domains == before + [d] <==> Storable(tx, d))
  {
    var before := Load(tx, file, supply).domains;
    var change := ds => AddChange(tx, ds, d);
    if Taken(tx, before, d.name) {
      RefusalIsKept(tx, file, supply, change, NameTaken(Normalise(tx, d.name)));
    } else {
      LoadedStorable(tx, file, supply);
      assert change(before) == Done(before + [d], d);
      assert AllStorable(tx, before + [d]) <==> Storable(tx, d) by {
        assert (before + [d])[|before|] == d;
      }
      WrittenReadsBack(tx, before + [d], supply);
      assert |Dicts(before)| != |Dicts(before + [d])|;
    }
  }

  function Given<T>(change: Option<T>, current: T): T {
    match change
    case Some(value) => value
    case None => current
  }

  /** The record `d` with the changes asked for and a new stamp. */
  predicate Changed(d: Domain, changes: Changes, now: string, e: Domain) {
    && e.id == d.id && e.source == d.source && e.owner == d.owner && e.pinnedFields == d.pinnedFields
    && e.createdAt == d.createdAt && e.updatedAt == now
    && e.name == Given(changes.name, d.name) && e.enabled == Given(changes.enabled, d.enabled)
    && e.address == Given(changes.address, d.address) && e.note == Given(changes.note, d.note)
  }

  /** `after` is `before` but for the record at `i`. */
  predicate OnlyAt(before: seq<Domain>, after: seq<Domain>, i: nat) {
    && i < |before| == |after|
    && forall j :: 0 <= j < |before| && j != i ==> after[j] == before[j]
  }

  lemma TheFirstWithId(domains: seq<Domain>, id: string, i: nat)
    requires FirstWithId(domains, id, i)
    ensures IndexById(domains, id) == Some(i)
  {
    assert domains[i] in domains;
  }

  /** An update of an unknown id is no failure and changes nothing. */
  lemma UnknownIdIsNothing(tx: Text, file: File, supply: Supply, id: string, changes: Changes, enabled: Option<bool>, now: string)
    requires supply.Lawful() && Usable(file) && NoneWithId(Load(tx, file, supply).domains, id)
    ensures var before := Load(tx, file, supply).domains;
            && MutateResult(tx, file, supply, ds => UpdateChange(ds, id, changes, now)) == Success(None)
            && MutateResult(tx, file, supply, ds => ToggleChange(ds, id, enabled, now)) == Success(None)
            && MutateResult(tx, file, supply, ds => DeleteChange(ds, id)) == Success(false)
            && Load(tx, ApplyToFile(tx, file, supply, Op.Update(id, changes, now)), supply).domains == before
            && Load(tx, ApplyToFile(tx, file, supply, Op.Toggle(id, enabled, now)), supply).domains == before
            && Load(tx, ApplyToFile(tx, file, supply, Op.Delete(id)), supply).domains == before
  {
    var before := Load(tx, file, supply).domains;
    LoadedStorable(tx, file, supply);
    ChangeIsKept(tx, file, supply, ds => UpdateChange(ds, id, changes, now), before, None);
    ChangeIsKept(tx, file, supply, ds => ToggleChange(ds, id, enabled, now), before, None);
    ChangeIsKept(tx, file, supply, ds => DeleteChange(ds, id), before, false);
  }

  /** A discovered record is neither updated nor deleted, and the answer names it. */
  lemma DiscoveredIsRefused(tx: Text, file: File, supply: Supply, id: string, changes: Changes, now: string, i: nat)
    requires Usable(file) && FirstWithId(Load(tx, file, supply).domains, id, i)
    requires Load(tx, file, supply).domains[i].source != Manual
    ensures var managed := StoreManaged(Load(tx, file, supply).domains[i].name);
            && MutateResult(tx, file, supply, ds => UpdateChange(ds, id, changes, now)) == Failure(managed)
            && MutateResult(tx, file, supply, ds => DeleteChange(ds, id)) == Failure(managed)
            && ApplyToFile(tx, file, supply, Op.Update(id, changes, now)) == file
            && ApplyToFile(tx, file, supply, Op.Delete(id)) == file
  {
    var before := Load(tx, file, supply).domains;
    TheFirstWithId(before, id, i);
    RefusalIsKept(tx, file, supply, ds => UpdateChange(ds, id, changes, now), StoreManaged(before[i].name));
    RefusalIsKept(tx, file, supply, ds => DeleteChange(ds, id), StoreManaged(before[i].name));
  }

  lemma StorableAfter(tx: Text, domains: seq<Domain>, op: Op)
    requires AllStorable(tx, domains) && StorableOp(tx, op)
    ensures AllStorable(tx, StoreHistory.Apply(tx, domains, op))
  {
    ApplyKeepsStorable(tx, domains, op);
  }

  lemma UpdateOfOne(domains: seq<Domain>, id: string, changes: Changes, now: string, i: nat)
    requires FirstWithId(domains, id, i) && domains[i].source == Manual
    ensures var done := UpdateChange(domains, id, changes, now);
            && done.Done? && OnlyAt(domains, done.domains, i) && Changed(domains[i], changes, now, done.domains[i])
            && done.result == Some(done.domains[i])
  {
    TheFirstWithId(domains, id, i);
  }

  lemma ToggleOfOne(domains: seq<Domain>, id: string, enabled: Option<bool>, now: string, i: nat)
    requires FirstWithId(domains, id, i)
    ensures var done := ToggleChange(domains, id, enabled, now);
            var switch := Changes(None, Some(Given(enabled, !domains[i].enabled)), None, None);
            && done.Done? && OnlyAt(domains, done.domains, i) && Changed(domains[i], switch, now, done.domains[i])
            && done.result == Some(done.domains[i])
  {
    TheFirstWithId(domains, id, i);
  }

  /** An update of a manual record changes that record, in the fields asked for, and is answered with
      it as it is now. */
  lemma UpdateUpdates(tx: Text, file: File, supply: Supply, id: string, changes: Changes, now: string, i: nat)
    requires supply.Lawful() && Usable(file) && FirstWithId(Load(tx, file, supply).domains, id, i)
    requires Load(tx, file, supply).domains[i].source == Manual && StorableOp(tx, Op.Update(id, changes, now))
    ensures var before := Load(tx, file, supply).domains;
            var after := Load(tx, ApplyToFile(tx, file, supply, Op.Update(id, changes, now)), supply).domains;
            && OnlyAt(before, after, i) && Changed(before[i], changes, now, after[i])
            && MutateResult(tx, file, supply, ds => UpdateChange(ds, id, changes, now)) == Success(Some(after[i]))
  {
    var before := Load(tx, file, supply).domains;
    UpdateOfOne(before, id, changes, now, i);
    LoadedStorable(tx, file, supply);
    StorableAfter(tx, before, Op.Update(id, changes, now));
    var change := ds => UpdateChange(ds, id, changes, now);
    ChangeIsKept(tx, file, supply, change, change(before).domains, change(before).result);
  }

  /** A toggle of any record switches it, to the state asked for or to the other one, and changes
      nothing else but its stamp. */
  lemma ToggleSwitches(tx: Text, file: File, supply: Supply, id: string, enabled: Option<bool>, now: string, i: nat)
    requires supply.Lawful() && Usable(file) && FirstWithId(Load(tx, file, supply).domains, id, i) && now != ""
    ensures var before := Load(tx, file, supply).domains;
            var after := Load(tx, ApplyToFile(tx, file, supply, Op.Toggle(id, enabled, now)), supply).domains;
            var switch := Changes(None, Some(Given(enabled, !before[i].enabled)), None, None);
            && OnlyAt(before, after, i) && Changed(before[i], switch, now, after[i])
            && MutateResult(tx, file, supply, ds => ToggleChange(ds, id, enabled, now)) == Success(Some(after[i]))
  {
    var before := Load(tx, file, supply).domains;
    ToggleOfOne(before, id, enabled, now, i);
    LoadedStorable(tx, file, supply);
    StorableAfter(tx, before, Op.Toggle(id, enabled, now));
    var change := ds => ToggleChange(ds, id, enabled, now);
    ChangeIsKept(tx, file, supply, change, change(before).domains, change(before).result);
  }

  /** A delete of a manual record removes that record and no other. */
  lemma DeleteDeletes(tx: Text, file: File, supply: Supply, id: string, i: nat)
    requires supply.Lawful() && Usable(file) && FirstWithId(Load(tx, file, supply).domains, id, i)
    requires Load(tx, file, supply).domains[i].source == Manual
    ensures var before := Load(tx, file, supply).domains;
            var after := Load(tx, ApplyToFile(tx, file, supply, Op.Delete(id)), supply).domains;
            && after == before[..i] + before[i + 1..]
            && MutateResult(tx, file, supply, ds => DeleteChange(ds, id)) == Success(true)
  {
    var before := Load(tx, file, supply).domains;
    TheFirstWithId(before, id, i);
    LoadedStorable(tx, file, supply);
    StorableAfter(tx, before, Op.Delete(id));
    var change := ds => DeleteChange(ds, id);
    ChangeIsKept(tx, file, supply, change, change(before).domains, true);
  }

  /** A synchronisation, through the file: what was observed under a name that no other source has is
      there afterwards, its own record following it, and the answer is that of the pass. */
  lemma SyncTakesOver(tx: Text, file: File, supply: Supply, source: Source, wanted: seq<Domain>, clock: nat -> string, k: nat)
    requires supply.Lawful() && Usable(file)
    requires var before := Load(tx, file, supply).domains;
             DistinctIds(before) && FreshIds(before, wanted) && OneEach(before, source)
    requires AllFrom(source, wanted) && DistinctOwners(wanted) && k < |wanted| && wanted[k].owner != ""
    requires StorableOp(tx, Op.Sync(source, wanted, clock))
    ensures var before := Load(tx, file, supply).domains;
            var after := Load(tx, ApplyToFile(tx, file, supply, Op.Sync(source, wanted, clock)), supply).domains;
            var answer := MutateResult(tx, file, supply, ds => ReconcileChange(tx, ds, source, wanted, clock));
            && answer.Success?
            && (Free(tx, before, source, wanted[k].name) ==>
                  TakenOver(source, before, after, answer.value, wanted[k], clock(k)))
            && (Held(tx, before, source, wanted, wanted[k]) ==> Refused(source, before, after, answer.value, wanted[k]))
  {
    var before := Load(tx, file, supply).domains;
    LoadedStorable(tx, file, supply);
    ObservedIsTakenOver(tx, source, before, wanted, clock, k);
    StorableAfter(tx, before, Op.Sync(source, wanted, clock));
    var change := ds => ReconcileChange(tx, ds, source, wanted, clock);
    ChangeIsKept(tx, file, supply, change, change(before).domains, change(before).result);
  }
}
