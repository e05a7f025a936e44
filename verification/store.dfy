/** The domain store: what each operation does to the list of records, and how a mutation
    reaches the file. */
module Store {
  import opened Prelude
  import opened Texts
  import opened Names
  import opened Model

  const SCHEMA_VERSION := 1

  datatype StoreError = StoreLocked | StoreReadOnly | NameTaken(name: string) | StoreManaged(name: string) | NotInList

  /** What a change made of a snapshot: the new list and a result, or an exception. */
  datatype Outcome<+R> = Done(domains: seq<Domain>, result: R) | Raised(error: StoreError)

  datatype Result<+R> = Success(value: R) | Failure(error: StoreError)

  // ---- the file ----

  /** `Missing` also stands for a file that cannot be read or holds no object; `schema` is the
      integer under that key, if there is one; `entries` is `None` when they are no list. */
  datatype File = Missing | File(schema: Option<int>, entries: Option<seq<Json>>)

  datatype Snapshot = Snapshot(domains: seq<Domain>, readOnly: bool, migrated: bool)

  /** The id generator and the clock one read of the file consults. */
  datatype Supply = Supply(ids: nat -> string, now: string) {
    ghost predicate Lawful() { now != "" && forall i :: ids(i) != "" }
  }

  function LoadEntries(tx: Text, entries: seq<Json>, supply: Supply): seq<Domain> {
    if entries == [] then []
    else
      var n := |entries| - 1;
      var d := FromDict(tx, entries[n], supply.ids(n), supply.now);
      LoadEntries(tx, entries[..n], supply) + (if d.Some? then [d.value] else [])
  }

  predicate TooNew(file: File) { file.File? && file.schema.Some? && file.schema.value > SCHEMA_VERSION }

  function Load(tx: Text, file: File, supply: Supply): Snapshot {
    if file.Missing? then Snapshot([], false, false)
    else
      var domains := if file.entries.Some? then LoadEntries(tx, file.entries.value, supply) else [];
      Snapshot(domains, TooNew(file), !TooNew(file) && file.schema != Some(SCHEMA_VERSION))
  }

  function Dicts(domains: seq<Domain>): (r: seq<Json>)
    ensures |r| == |domains| && forall i :: 0 <= i < |domains| ==> r[i] == ToDict(domains[i])
  {
    seq(|domains|, i requires 0 <= i < |domains| => ToDict(domains[i]))
  }

  function Written(domains: seq<Domain>): File { File(Some(SCHEMA_VERSION), Some(Dicts(domains))) }

  /** The file after `mutate(change)`: untouched unless the change went through and altered
      something, or the schema had to be stamped. */
  function Mutated<R>(tx: Text, file: File, supply: Supply, change: seq<Domain> -> Outcome<R>): File {
    var snapshot := Load(tx, file, supply);
    if snapshot.readOnly then file
    else
      match change(snapshot.domains)
      case Raised(_) => file
      case Done(domains, _) =>
        if Dicts(snapshot.domains) != Dicts(domains) || snapshot.migrated then Written(domains) else file
  }

  function MutateResult<R>(tx: Text, file: File, supply: Supply, change: seq<Domain> -> Outcome<R>): Result<R> {
    var snapshot := Load(tx, file, supply);
    if snapshot.readOnly then Failure(StoreReadOnly)
    else
      match change(snapshot.domains)
      case Raised(error) => Failure(error)
      case Done(_, result) => Success(result)
  }

  // ---- the operations on a snapshot ----

  function ByName(tx: Text, domains: seq<Domain>, name: string): (r: Option<Domain>)
    ensures r.Some? ==> r.value in domains && Normalise(tx, r.value.name) == Normalise(tx, name)
    ensures r.None? ==> forall d <- domains :: Normalise(tx, d.name) != Normalise(tx, name)
  {
    if domains == [] then None
    else if Normalise(tx, domains[0].name) == Normalise(tx, name) then Some(domains[0])
    else ByName(tx, domains[1..], name)
  }

  function IndexById(domains: seq<Domain>, id: string): (r: Option<nat>)
    ensures r.Some? ==> r.value < |domains| && domains[r.value].id == id && forall j :: 0 <= j < r.value ==> domains[j].id != id
    ensures r.None? ==> forall d <- domains :: d.id != id
  {
    if domains == [] then None
    else if domains[0].id == id then Some(0)
    else
      match IndexById(domains[1..], id)
      case Some(i) => Some(i + 1)
      case None => None
  }

  /** `list.index(record)`: the first record equal to it. */
  function IndexOf(domains: seq<Domain>, d: Domain): (r: Option<nat>)
    ensures r.Some? ==> r.value < |domains| && domains[r.value] == d
    ensures r.None? ==> d !in domains
  {
    if domains == [] then None
    else if domains[0] == d then Some(0)
    else
      match IndexOf(domains[1..], d)
      case Some(i) => Some(i + 1)
      case None => None
  }

  function AddChange(tx: Text, domains: seq<Domain>, d: Domain): Outcome<Domain> {
    if ByName(tx, domains, d.name).Some? then Raised(NameTaken(Normalise(tx, d.name)))
    else Done(domains + [d], d)
  }

  /** The fields a caller may hand to `update`. */
  datatype Changes = Changes(name: Option<string>, enabled: Option<bool>, address: Option<string>, note: Option<string>)

  function Or<T>(change: Option<T>, current: T): T { if change.Some? then change.value else current }

  function Touched(d: Domain, changes: Changes, now: string): Domain {
    d.(name := Or(changes.name, d.name), enabled := Or(changes.enabled, d.enabled),
       address := Or(changes.address, d.address), note := Or(changes.note, d.note), updatedAt := now)
  }

  function UpdateChange(domains: seq<Domain>, id: string, changes: Changes, now: string): Outcome<Option<Domain>> {
    match IndexById(domains, id)
    case None => Done(domains, None)
    case Some(i) =>
      if domains[i].source != Manual then Raised(StoreManaged(domains[i].name))
      else var updated := Touched(domains[i], changes, now); Done(domains[i := updated], Some(updated))
  }

  function ToggleChange(domains: seq<Domain>, id: string, enabled: Option<bool>, now: string): Outcome<Option<Domain>> {
    match IndexById(domains, id)
    case None => Done(domains, None)
    case Some(i) =>
      var updated := domains[i].(enabled := Or(enabled, !domains[i].enabled), updatedAt := now);
      Done(domains[i := updated], Some(updated))
  }

  /** `list.remove(record)` drops the first record equal to the one found by id, which is itself. */
  function DeleteChange(domains: seq<Domain>, id: string): Outcome<bool> {
    match IndexById(domains, id)
    case None => Done(domains, false)
    case Some(i) =>
      if domains[i].source != Manual then Raised(StoreManaged(domains[i].name))
      else Done(domains[..i] + domains[i + 1..], true)
  }

  // ---- reconciliation ----

  datatype ReconcileResult = ReconcileResult(
    added: seq<string>, updated: seq<string>, removed: seq<string>, conflicts: seq<string>, skippedNoOwner: nat)
  {
    predicate Changed() { added != [] || updated != [] || removed != [] }
  }

  const NOTHING := ReconcileResult([], [], [], [], 0)

  /** The dictionary of the source's own records, by owner: the last one of an owner wins. */
  function Mine(domains: seq<Domain>, source: Source): (r: map<string, Domain>)
    ensures forall o <- r :: o != "" && r[o] in domains && r[o].source == source && r[o].owner == o
    ensures forall d <- domains :: d.source == source && d.owner != "" ==> d.owner in r
  {
    if domains == [] then map[]
    else
      var last := domains[|domains| - 1];
      var before := Mine(domains[..|domains| - 1], source);
      if last.source == source && last.owner != "" then before[last.owner := last] else before
  }

  function Unless(pinned: bool, current: string, observed: string): string {
    if pinned then current else observed
  }

  /** The current record with every unpinned observed field taken over. */
  function Merged(current: Domain, c: Domain): Domain {
    current.(name := Unless("name" in current.pinnedFields, current.name, c.name),
             address := Unless("address" in current.pinnedFields, current.address, c.address),
             note := Unless("note" in current.pinnedFields, current.note, c.note))
  }

  predicate Clashes(tx: Text, domains: seq<Domain>, source: Source, name: string) {
    var clash := ByName(tx, domains, name);
    clash.Some? && clash.value.source != source
  }

  /** One candidate. `mine` is the dictionary made when the pass began; it is never refreshed. */
  function Consider(tx: Text, source: Source, mine: map<string, Domain>, domains: seq<Domain>,
                    result: ReconcileResult, c: Domain, now: string): Outcome<ReconcileResult>
  {
    if c.owner == "" then Done(domains, result.(skippedNoOwner := result.skippedNoOwner + 1))
    else if Clashes(tx, domains, source, c.name) then Done(domains, result.(conflicts := result.conflicts + [c.name]))
    else if c.owner !in mine then Done(domains + [c], result.(added := result.added + [c.name]))
    else
      var current := mine[c.owner];
      if Merged(current, c) == current then Done(domains, result)
      else
        match IndexOf(domains, current)
        case None => Raised(NotInList)
        case Some(i) =>
          Done(domains[i := Merged(current, c).(updatedAt := now)], result.(updated := result.updated + [c.name]))
  }

  function ConsiderAll(tx: Text, source: Source, initial: seq<Domain>, wanted: seq<Domain>, clock: nat -> string)
    : Outcome<ReconcileResult>
  {
    if wanted == [] then Done(initial, NOTHING)
    else
      var n := |wanted| - 1;
      var before := ConsiderAll(tx, source, initial, wanted[..n], clock);
      if before.Raised? then before
      else Consider(tx, source, Mine(initial, source), before.domains, before.result, wanted[n], clock(n))
  }

  function Observed(wanted: seq<Domain>): set<string> {
    set c | c in wanted && c.owner != "" :: c.owner
  }

  predicate Stale(d: Domain, source: Source, observed: set<string>) {
    d.source == source && d.owner != "" && d.owner !in observed
  }

  function StaleOnes(domains: seq<Domain>, source: Source, observed: set<string>): (r: seq<Domain>)
    ensures forall d :: d in r <==> d in domains && Stale(d, source, observed)
  {
    if domains == [] then []
    else (if Stale(domains[0], source, observed) then [domains[0]] else []) + StaleOnes(domains[1..], source, observed)
  }

  function WithoutIds(domains: seq<Domain>, gone: set<string>): (r: seq<Domain>)
    ensures forall d :: d in r <==> d in domains && d.id !in gone
  {
    if domains == [] then []
    else (if domains[0].id in gone then [] else [domains[0]]) + WithoutIds(domains[1..], gone)
  }

  function NamesOf(domains: seq<Domain>): seq<string> {
    seq(|domains|, i requires 0 <= i < |domains| => domains[i].name)
  }

  function IdsOf(domains: seq<Domain>): set<string> {
    set d | d in domains :: d.id
  }

  /** Drops the records that share an id with a stale one. */
  function Swept(domains: seq<Domain>, source: Source, observed: set<string>, result: ReconcileResult)
    : Outcome<ReconcileResult>
  {
    var stale := StaleOnes(domains, source, observed);
    Done(WithoutIds(domains, IdsOf(stale)), result.(removed := result.removed + NamesOf(stale)))
  }

  function ReconcileChange(tx: Text, domains: seq<Domain>, source: Source, wanted: seq<Domain>, clock: nat -> string)
    : Outcome<ReconcileResult>
  {
    var considered := ConsiderAll(tx, source, domains, wanted, clock);
    if considered.Raised? then considered
    else Swept(considered.domains, source, Observed(wanted), considered.result)
  }

  // ---- the store object ----

  /** A snapshot as a change sees it: one list, edited in place. */
  class Working {
    var domains: seq<Domain>

    constructor (domains: seq<Domain>)
      ensures this.domains == domains
    {
      this.domains := domains;
    }

    method OwnRecords(source: Source) returns (mine: map<string, Domain>)
      ensures mine == Mine(domains, source)
    {
      mine := map[];
      for i := 0 to |domains|
        invariant mine == Mine(domains[..i], source)
      {
        assert domains[..i + 1][..i] == domains[..i];
        var d := domains[i];
        if d.source == source && d.owner != "" {
          mine := mine[d.owner := d];
        }
      }
      assert domains[..|domains|] == domains;
    }

    method ConsiderOne(tx: Text, source: Source, mine: map<string, Domain>, before: ReconcileResult, c: Domain, now: string)
      returns (r: Result<ReconcileResult>)
      modifies this
      ensures r.Success? ==> Consider(tx, source, mine, old(domains), before, c, now) == Done(domains, r.value)
      ensures r.Failure? ==> Consider(tx, source, mine, old(domains), before, c, now) == Raised(r.error)
    {
      var result := before;
      if c.owner == "" {
        result := result.(skippedNoOwner := result.skippedNoOwner + 1);
      } else if Clashes(tx, domains, source, c.name) {
        result := result.(conflicts := result.conflicts + [c.name]);
      } else if c.owner !in mine {
        domains := domains + [c];
        result := result.(added := result.added + [c.name]);
      } else {
        var current := mine[c.owner];
        var merged := Merged(current, c);
        if merged != current {
          var index := IndexOf(domains, current);
          if index.None? {
            return Failure(NotInList);
          }
          domains := domains[index.value := merged.(updatedAt := now)];
          result := result.(updated := result.updated + [c.name]);
        }
      }
      r := Success(result);
    }

    /** The reconciliation pass. On an exception the list may be left half changed. */
    method Reconcile(tx: Text, source: Source, wanted: seq<Domain>, clock: nat -> string)
      returns (r: Result<ReconcileResult>)
      modifies this
      ensures r.Success? ==> ReconcileChange(tx, old(domains), source, wanted, clock) == Done(domains, r.value)
      ensures r.Failure? ==> ReconcileChange(tx, old(domains), source, wanted, clock) == Raised(r.error)
    {
      ghost var initial := domains;
      var result := NOTHING;
      var mine := OwnRecords(source);
      var observed: set<string> := {};
      for k := 0 to |wanted|
        invariant ConsiderAll(tx, source, initial, wanted[..k], clock) == Done(domains, result)
        invariant observed == Observed(wanted[..k])
      {
        ConsiderAllStep(tx, source, initial, wanted, clock, k);
        if wanted[k].owner != "" {
          observed := observed + {wanted[k].owner};
        }
        ObservedStep(wanted, k);
        var step := ConsiderOne(tx, source, mine, result, wanted[k], clock(k));
        if step.Failure? {
          RaisedStays(tx, source, initial, wanted, clock, k + 1, step.error);
          return step;
        }
        result := step.value;
      }
      assert wanted[..|wanted|] == wanted;
      result := SweepStale(source, observed, result);
      r := Success(result);
    }

    method SweepStale(source: Source, observed: set<string>, before: ReconcileResult) returns (result: ReconcileResult)
      modifies this
      ensures Done(domains, result) == Swept(old(domains), source, observed, before)
    {
      result := before;
      var stale := StaleOnes(domains, source, observed);
      if stale != [] {
        domains := WithoutIds(domains, IdsOf(stale));
        result := result.(removed := result.removed + NamesOf(stale));
      } else {
        WithoutNothing(domains);
        assert before.removed + NamesOf([]) == before.removed;
      }
    }
  }

  lemma ConsiderAllStep(tx: Text, source: Source, initial: seq<Domain>, wanted: seq<Domain>, clock: nat -> string, k: nat)
    requires k < |wanted|
    ensures ConsiderAll(tx, source, initial, wanted[..k + 1], clock) ==
            var before := ConsiderAll(tx, source, initial, wanted[..k], clock);
            if before.Raised? then before
            else Consider(tx, source, Mine(initial, source), before.domains, before.result, wanted[k], clock(k))
  {
    assert wanted[..k + 1][..k] == wanted[..k];
  }

  lemma ObservedStep(wanted: seq<Domain>, k: nat)
    requires k < |wanted|
    ensures Observed(wanted[..k + 1])
            == Observed(wanted[..k]) + if wanted[k].owner != "" then {wanted[k].owner} else {}
  {
    assert wanted[..k + 1] == wanted[..k] + [wanted[k]];
  }

  lemma {:induction false} RaisedStays(tx: Text, source: Source, initial: seq<Domain>, wanted: seq<Domain>,
                                       clock: nat -> string, k: nat, error: StoreError)
    requires k <= |wanted| && ConsiderAll(tx, source, initial, wanted[..k], clock) == Raised(error)
    ensures ConsiderAll(tx, source, initial, wanted, clock) == Raised(error)
    decreases |wanted|
  {
    if k < |wanted| {
      PrefixOfPrefix(wanted, |wanted| - 1, k);
      RaisedStays(tx, source, initial, wanted[..|wanted| - 1], clock, k, error);
    } else {
      WholePrefix(wanted);
    }
  }

  lemma {:induction false} WithoutNothing(domains: seq<Domain>)
    ensures WithoutIds(domains, {}) == domains
    ensures IdsOf([]) == {}
  {
    if domains != [] {
      WithoutNothing(domains[1..]);
    }
  }

  class DomainStore {
    const tx: Text
    var file: File

    constructor (tx: Text, file: File)
      ensures this.tx == tx && this.file == file
    {
      this.tx := tx;
      this.file := file;
    }

    /** Lock, re-read, change, write. `acquired` says whether the lock came within its timeout. */
    method Mutate<R>(change: seq<Domain> -> Outcome<R>, acquired: bool, supply: Supply) returns (r: Result<R>)
      modifies this
      ensures !acquired ==> r == Failure(StoreLocked) && file == old(file)
      ensures acquired ==> file == Mutated(tx, old(file), supply, change)
                           && r == MutateResult(tx, old(file), supply, change)
    {
      if !acquired {
        return Failure(StoreLocked);
      }
      var snapshot := Load(tx, file, supply);
      if snapshot.readOnly {
        return Failure(StoreReadOnly);
      }
      var outcome := change(snapshot.domains);
      if outcome.Raised? {
        return Failure(outcome.error);
      }
      Save(snapshot, outcome.domains);
      r := Success(outcome.result);
    }

    /** A pass that changed nothing does not write. */
    method Save(before: Snapshot, after: seq<Domain>)
      modifies this
      ensures file == if Dicts(before.domains) != Dicts(after) || before.migrated then Written(after) else old(file)
    {
      if Dicts(before.domains) != Dicts(after) || before.migrated {
        file := Written(after);
      }
    }

    method Add(d: Domain, acquired: bool, supply: Supply) returns (r: Result<Domain>)
      modifies this
      ensures acquired ==> file == Mutated(tx, old(file), supply, ds => AddChange(tx, ds, d))
      ensures acquired ==> r == MutateResult(tx, old(file), supply, ds => AddChange(tx, ds, d))
      ensures acquired && !TooNew(old(file)) ==>
                var before := Load(tx, old(file), supply).domains;
                if exists e :: e in before && Normalise(tx, e.name) == Normalise(tx, d.name)
                then r == Failure(NameTaken(Normalise(tx, d.name))) && file == old(file)
                else r == Success(d) && file == Written(before + [d])
      ensures !acquired ==> r == Failure(StoreLocked) && file == old(file)
    {
      r := Mutate(ds => AddChange(tx, ds, d), acquired, supply);
      ghost var before := Load(tx, old(file), supply).domains;
      assert |Dicts(before + [d])| != |Dicts(before)|;
    }

    method Update(id: string, changes: Changes, now: string, acquired: bool, supply: Supply)
      returns (r: Result<Option<Domain>>)
      modifies this
      ensures acquired ==> file == Mutated(tx, old(file), supply, ds => UpdateChange(ds, id, changes, now))
      ensures acquired ==> r == MutateResult(tx, old(file), supply, ds => UpdateChange(ds, id, changes, now))
      ensures !acquired ==> r == Failure(StoreLocked) && file == old(file)
    {
      r := Mutate(ds => UpdateChange(ds, id, changes, now), acquired, supply);
    }

    method Toggle(id: string, enabled: Option<bool>, now: string, acquired: bool, supply: Supply)
      returns (r: Result<Option<Domain>>)
      modifies this
      ensures acquired ==> file == Mutated(tx, old(file), supply, ds => ToggleChange(ds, id, enabled, now))
      ensures acquired ==> r == MutateResult(tx, old(file), supply, ds => ToggleChange(ds, id, enabled, now))
      ensures !acquired ==> r == Failure(StoreLocked) && file == old(file)
    {
      r := Mutate(ds => ToggleChange(ds, id, enabled, now), acquired, supply);
    }

    method Delete(id: string, acquired: bool, supply: Supply) returns (r: Result<bool>)
      modifies this
      ensures acquired ==> file == Mutated(tx, old(file), supply, ds => DeleteChange(ds, id))
      ensures acquired ==> r == MutateResult(tx, old(file), supply, ds => DeleteChange(ds, id))
      ensures !acquired ==> r == Failure(StoreLocked) && file == old(file)
    {
      r := Mutate(ds => DeleteChange(ds, id), acquired, supply);
    }

    /** The same steps around the in-place pass. */
    method Reconcile(source: Source, wanted: seq<Domain>, clock: nat -> string, acquired: bool, supply: Supply)
      returns (r: Result<ReconcileResult>)
      modifies this
      ensures acquired ==> file == Mutated(tx, old(file), supply, ds => ReconcileChange(tx, ds, source, wanted, clock))
      ensures acquired ==> r == MutateResult(tx, old(file), supply, ds => ReconcileChange(tx, ds, source, wanted, clock))
      ensures !acquired ==> r == Failure(StoreLocked) && file == old(file)
    {
      if !acquired {
        return Failure(StoreLocked);
      }
      var snapshot := Load(tx, file, supply);
      if snapshot.readOnly {
        return Failure(StoreReadOnly);
      }
      var working := new Working(snapshot.domains);
      r := working.Reconcile(tx, source, wanted, clock);
      if r.Success? {
        Save(snapshot, working.domains);
      }
    }
  }
}
