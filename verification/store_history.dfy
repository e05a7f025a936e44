/** The store over whole runs of its operations. */
module StoreHistory {
  import opened Prelude
  import opened Texts
  import opened Names
  import opened Model
  import opened Zones
  import opened Store
  import opened Reconciliation
  import opened Fixpoint

  datatype Op =
    | Add(d: Domain)
    | Update(id: string, changes: Changes, now: string)
    | Toggle(id: string, enabled: Option<bool>, now: string)
    | Delete(id: string)
    | Sync(source: Source, wanted: seq<Domain>, clock: nat -> string)

  function OrUnchanged<R>(before: seq<Domain>, outcome: Outcome<R>): seq<Domain> {
    if outcome.Done? then outcome.domains else before
  }

  /** The list after one operation; a refused one leaves it alone. */
  function Apply(tx: Text, domains: seq<Domain>, op: Op): seq<Domain> {
    match op
    case Add(d) => OrUnchanged(domains, AddChange(tx, domains, d))
    case Update(id, changes, now) => OrUnchanged(domains, UpdateChange(domains, id, changes, now))
    case Toggle(id, enabled, now) => OrUnchanged(domains, ToggleChange(domains, id, enabled, now))
    case Delete(id) => OrUnchanged(domains, DeleteChange(domains, id))
    case Sync(source, wanted, clock) => OrUnchanged(domains, ReconcileChange(tx, domains, source, wanted, clock))
  }

  /** The list after a run that began with an empty store. */
  function Run(tx: Text, ops: seq<Op>): seq<Domain> {
    if |ops| == 0 then [] else Apply(tx, Run(tx, ops[..|ops| - 1]), ops[|ops| - 1])
  }

  function Introduced(op: Op): seq<Domain> {
    match op
    case Add(d) => [d]
    case Sync(_, wanted, _) => wanted
    case _ => []
  }

  function IdsIntroduced(ops: seq<Op>): set<string> {
    if |ops| == 0 then {} else IdsIntroduced(ops[..|ops| - 1]) + IdsOf(Introduced(ops[|ops| - 1]))
  }

  /** What every caller provides: a new id for each new record, and candidates of the source
      that is being synchronised. */
  ghost predicate WellFormedRun(ops: seq<Op>) {
    |ops| == 0 || (
      var last := ops[|ops| - 1];
      && WellFormedRun(ops[..|ops| - 1])
      && DistinctIds(Introduced(last))
      && IdsOf(Introduced(last)) !! IdsIntroduced(ops[..|ops| - 1])
      && (last.Sync? ==> AllFrom(last.source, last.wanted))
    )
  }

  lemma {:induction false} RunHasDistinctIds(tx: Text, ops: seq<Op>)
    requires WellFormedRun(ops)
    ensures DistinctIds(Run(tx, ops)) && IdsOf(Run(tx, ops)) <= IdsIntroduced(ops)
  {
    if |ops| > 0 {
      var n := |ops| - 1;
      RunHasDistinctIds(tx, ops[..n]);
      ApplyKeepsIds(tx, Run(tx, ops[..n]), ops[n], IdsIntroduced(ops[..n]));
    }
  }

  lemma RunIsFresh(tx: Text, ops: seq<Op>)
    requires |ops| > 0 && WellFormedRun(ops)
    ensures var n := |ops| - 1; DistinctIds(Run(tx, ops[..n])) && FreshIds(Run(tx, ops[..n]), Introduced(ops[n]))
  {
    var n := |ops| - 1;
    RunHasDistinctIds(tx, ops[..n]);
    forall d, c | d in Run(tx, ops[..n]) && c in Introduced(ops[n]) ensures d.id != c.id {
      assert d.id in IdsOf(Run(tx, ops[..n])) && c.id in IdsOf(Introduced(ops[n]));
    }
  }

  lemma ApplyKeepsIds(tx: Text, domains: seq<Domain>, op: Op, known: set<string>)
    requires DistinctIds(domains) && IdsOf(domains) <= known
    requires DistinctIds(Introduced(op)) && IdsOf(Introduced(op)) !! known
    ensures DistinctIds(Apply(tx, domains, op)) && IdsOf(Apply(tx, domains, op)) <= known + IdsOf(Introduced(op))
  {
    forall d, c | d in domains && c in Introduced(op) ensures d.id != c.id {
      assert d.id in IdsOf(domains) && c.id in IdsOf(Introduced(op));
    }
    match op
    case Sync(source, wanted, clock) =>
      if ReconcileChange(tx, domains, source, wanted, clock).Done? {
        SyncKeepsIds(tx, domains, source, wanted, clock, known);
      }
    case Add(d) => AppendKeepsIds(domains, d, known);
    case Update(id, changes, now) =>
      if IndexById(domains, id).Some? {
        ReplaceKeepsIds(domains, IndexById(domains, id).value, known);
      }
    case Toggle(id, enabled, now) =>
      if IndexById(domains, id).Some? {
        ReplaceKeepsIds(domains, IndexById(domains, id).value, known);
      }
    case Delete(id) =>
      if IndexById(domains, id).Some? {
        DropKeepsIds(domains, IndexById(domains, id).value, known);
      }
  }

  lemma AppendKeepsIds(domains: seq<Domain>, d: Domain, known: set<string>)
    requires DistinctIds(domains) && IdsOf(domains) <= known && d.id !in known
    ensures DistinctIds(domains + [d]) && IdsOf(domains + [d]) <= known + IdsOf([d])
  {
    assert forall e <- domains :: e.id in IdsOf(domains);
    assert d in [d];
  }

  lemma ReplaceKeepsIds(domains: seq<Domain>, i: nat, known: set<string>)
    requires i < |domains| && DistinctIds(domains) && IdsOf(domains) <= known
    ensures forall d: Domain :: d.id == domains[i].id ==>
              DistinctIds(domains[i := d]) && IdsOf(domains[i := d]) <= known
  {
    forall d: Domain | d.id == domains[i].id
      ensures DistinctIds(domains[i := d]) && IdsOf(domains[i := d]) <= known
    {
      assert forall e <- domains :: e.id in IdsOf(domains);
      assert domains[i] in domains;
    }
  }

  lemma DropKeepsIds(domains: seq<Domain>, i: nat, known: set<string>)
    requires i < |domains| && DistinctIds(domains) && IdsOf(domains) <= known
    ensures DistinctIds(domains[..i] + domains[i + 1..]) && IdsOf(domains[..i] + domains[i + 1..]) <= known
  {
    assert forall e <- domains :: e.id in IdsOf(domains);
  }

  lemma SyncKeepsIds(tx: Text, domains: seq<Domain>, source: Source, wanted: seq<Domain>, clock: nat -> string,
                     known: set<string>)
    requires DistinctIds(domains) && FreshIds(domains, wanted) && IdsOf(domains) <= known
    requires ReconcileChange(tx, domains, source, wanted, clock).Done?
    ensures var after := ReconcileChange(tx, domains, source, wanted, clock).domains;
            DistinctIds(after) && IdsOf(after) <= known + IdsOf(wanted)
  {
    forall d | d in ReconcileChange(tx, domains, source, wanted, clock).domains
      ensures d.id in known + IdsOf(wanted)
    {
      WhoRemains(tx, source, domains, wanted, clock, d);
    }
    ConsiderAllGrows(tx, source, domains, wanted, clock);
    var considered := ConsiderAll(tx, source, domains, wanted, clock).domains;
    SweepDropsTheStale(considered, source, Observed(wanted));
    RemainingKeepsIds(considered, source, Observed(wanted));
  }

  // ---- who disappears, and by whose hand ----

  /** The operations that may end a record. */
  ghost predicate Ends(tx: Text, domains: seq<Domain>, op: Op, d: Domain) {
    match op
    case Delete(id) => id == d.id && d.source == Manual
    case Sync(source, wanted, clock) =>
      d.source == source && d.owner != "" && d.owner !in Observed(wanted)
      && ReconcileChange(tx, domains, source, wanted, clock).Done?
    case _ => false
  }

  /** The same record, however its fields were edited since. */
  predicate SameRecord(a: Domain, b: Domain) { a.id == b.id && a.source == b.source && a.owner == b.owner }

  ghost predicate Survives(d: Domain, after: seq<Domain>) {
    exists e :: e in after && SameRecord(d, e)
  }

  lemma SyncEndsOrKeeps(tx: Text, domains: seq<Domain>, op: Op, d: Domain)
    requires op.Sync? && DistinctIds(domains) && FreshIds(domains, Introduced(op)) && d in domains
    ensures Ends(tx, domains, op, d) <==> !Survives(d, Apply(tx, domains, op))
    ensures !Ends(tx, domains, op, d) ==>
              exists e :: e in Apply(tx, domains, op) && SameRecord(d, e) && e.enabled == d.enabled
    ensures d.source != op.source ==> d in Apply(tx, domains, op)
  {
    var after := Apply(tx, domains, op);
    if ReconcileChange(tx, domains, op.source, op.wanted, op.clock).Done? {
      WhoRemains(tx, op.source, domains, op.wanted, op.clock, d);
      if e :| e in after && SameRecord(d, e) {
        WhoRemains(tx, op.source, domains, op.wanted, op.clock, e);
        if o :| o in domains && SameIdentity(o, e) {
          SameIdSamePlace(domains, o, d);
        }
      }
    } else {
      assert d in after && SameRecord(d, d);
    }
  }

  lemma SameIdSamePlace(domains: seq<Domain>, a: Domain, b: Domain)
    requires DistinctIds(domains) && a in domains && b in domains && a.id == b.id
    ensures a == b
  {
    var i := PlaceOf(domains, a);
    var j := PlaceOf(domains, b);
    assert i == j;
  }

  lemma DeleteEndsOrKeeps(domains: seq<Domain>, k: nat, d: Domain)
    requires DistinctIds(domains) && k < |domains| && d in domains
    ensures d == domains[k] <==> !Survives(d, domains[..k] + domains[k + 1..])
  {
    var after := domains[..k] + domains[k + 1..];
    var i := PlaceOf(domains, d);
    if i == k {
      forall e | e in after ensures e.id != d.id {
        var m := PlaceOf(after, e);
        assert e == domains[if m < k then m else m + 1];
      }
    } else {
      assert after[if i < k then i else i - 1] == d && SameRecord(d, d);
    }
  }

  lemma OpEndsOrKeeps(tx: Text, domains: seq<Domain>, op: Op, d: Domain)
    requires DistinctIds(domains) && FreshIds(domains, Introduced(op)) && d in domains
    ensures Ends(tx, domains, op, d) <==> !Survives(d, Apply(tx, domains, op))
  {
    var after := Apply(tx, domains, op);
    var i := PlaceOf(domains, d);
    match op
    case Sync(_, _, _) => SyncEndsOrKeeps(tx, domains, op, d);
    case Delete(id) =>
      var found := IndexById(domains, id);
      if found.Some? && domains[found.value].source == Manual {
        DeleteEndsOrKeeps(domains, found.value, d);
        if d.id == id {
          SameIdSamePlace(domains, d, domains[found.value]);
        }
      } else {
        assert d in after && SameRecord(d, d);
        if found.Some? && d.id == id {
          SameIdSamePlace(domains, d, domains[found.value]);
        }
      }
    case Add(_) => assert after[i] == d && SameRecord(d, d);
    case Update(_, _, _) => assert after[i] in after && SameRecord(d, after[i]);
    case Toggle(_, _, _) => assert after[i] in after && SameRecord(d, after[i]);
  }

  /** Over a whole run: a record that was there at some point is there at the end, with its
      id, source and owner, unless some later operation was entitled to end it. */
  lemma {:induction false} StaysUntilEnded(tx: Text, ops: seq<Op>, i: nat, d: Domain)
    requires WellFormedRun(ops) && i <= |ops| && d in Run(tx, ops[..i])
    ensures Survives(d, Run(tx, ops))
            || exists k, e :: i <= k < |ops| && SameRecord(d, e) && Ends(tx, Run(tx, ops[..k]), ops[k], e)
    decreases |ops|
  {
    if i == |ops| {
      WholePrefix(ops);
      assert SameRecord(d, d);
    } else {
      var n := |ops| - 1;
      PrefixOfPrefix(ops, n, i);
      StaysUntilEnded(tx, ops[..n], i, d);
      if e :| e in Run(tx, ops[..n]) && SameRecord(d, e) {
        RunIsFresh(tx, ops);
        OpEndsOrKeeps(tx, Run(tx, ops[..n]), ops[n], e);
        if Survives(e, Run(tx, ops)) {
          var f :| f in Run(tx, ops) && SameRecord(e, f);
          assert SameRecord(d, f);
        }
      } else {
        var k, e :| i <= k < n && SameRecord(d, e) && Ends(tx, Run(tx, ops[..n][..k]), ops[..n][k], e);
        PrefixOfPrefix(ops, n, k);
      }
    }
  }

  /** The daemon synchronises discovered sources only; then what a user added stays until the
      user deletes it by its id. */
  lemma ManualUntilDeleted(tx: Text, ops: seq<Op>, i: nat, d: Domain)
    requires WellFormedRun(ops) && i <= |ops| && d in Run(tx, ops[..i]) && d.source == Manual
    requires forall op <- ops :: op.Sync? ==> op.source != Manual
    ensures Survives(d, Run(tx, ops)) || exists k :: i <= k < |ops| && ops[k] == Delete(d.id)
  {
    StaysUntilEnded(tx, ops, i, d);
    if !Survives(d, Run(tx, ops)) {
      var k, e :| i <= k < |ops| && SameRecord(d, e) && Ends(tx, Run(tx, ops[..k]), ops[k], e);
      assert ops[k] in ops;
    }
  }

  // ---- names over whole runs ----

  function HostOwner(tx: Text, name: string): string { "host:" + Normalise(tx, name) }

  /** Discovered records are owned by their own normalised names. */
  ghost predicate OwnedByName(tx: Text, domains: seq<Domain>) {
    forall d <- domains :: d.source != Manual ==> d.owner == HostOwner(tx, d.name)
  }

  lemma HostOwnerIsInjective(tx: Text, a: string, b: string)
    requires HostOwner(tx, a) == HostOwner(tx, b)
    ensures Normalise(tx, a) == Normalise(tx, b)
  {
    assert HostOwner(tx, a)[5..] == Normalise(tx, a) && HostOwner(tx, b)[5..] == Normalise(tx, b);
  }

  /** What both importers hand over. */
  ghost predicate Imported(tx: Text, source: Source, wanted: seq<Domain>) {
    source != Manual && AllFrom(source, wanted) && DistinctOwners(wanted)
    && forall c <- wanted :: c.owner == HostOwner(tx, c.name)
  }

  /** Appending needs a name nobody holds: a holder of the same source would be in `mine`. */
  lemma AppendedNameIsNew(tx: Text, source: Source, initial: seq<Domain>, seen: seq<Domain>, domains: seq<Domain>, c: Domain)
    requires |initial| <= |domains| && forall i :: 0 <= i < |initial| ==> SameIdentity(initial[i], domains[i])
    requires forall i :: |initial| <= i < |domains| ==> domains[i] in seen
    requires OwnedByName(tx, domains) && source != Manual && c.owner == HostOwner(tx, c.name)
    requires forall e <- seen :: e.owner != c.owner
    requires c.owner !in Mine(initial, source) && !Clashes(tx, domains, source, c.name)
    ensures forall d <- domains :: Normalise(tx, d.name) != Normalise(tx, c.name)
  {
  }

  lemma AppendKeepsNames(tx: Text, domains: seq<Domain>, d: Domain)
    requires d.source != Manual ==> d.owner == HostOwner(tx, d.name)
    requires forall e <- domains :: Normalise(tx, e.name) != Normalise(tx, d.name)
    requires DistinctNames(tx, domains) && OwnedByName(tx, domains)
    ensures DistinctNames(tx, domains + [d]) && OwnedByName(tx, domains + [d])
  {
  }

  lemma ReplaceKeepsNames(tx: Text, domains: seq<Domain>, i: nat, d: Domain)
    requires i < |domains| && Normalise(tx, d.name) == Normalise(tx, domains[i].name)
    requires d.source == domains[i].source && d.owner == domains[i].owner
    requires DistinctNames(tx, domains) && OwnedByName(tx, domains)
    ensures DistinctNames(tx, domains[i := d]) && OwnedByName(tx, domains[i := d])
  {
    assert domains[i] in domains;
  }

  lemma NamesEffect(tx: Text, source: Source, initial: seq<Domain>, seen: seq<Domain>, domains: seq<Domain>,
                    c: Domain, now: string, after: seq<Domain>, j: nat)
    requires Effect(tx, source, initial, domains, c, now, after, j)
    requires |initial| <= |domains| && forall i :: 0 <= i < |initial| ==> SameIdentity(initial[i], domains[i])
    requires forall i :: |initial| <= i < |domains| ==> domains[i] in seen
    requires source != Manual && c.owner == HostOwner(tx, c.name) && forall e <- seen :: e.owner != c.owner
    requires DistinctNames(tx, domains) && OwnedByName(tx, domains)
    ensures DistinctNames(tx, after) && OwnedByName(tx, after)
  {
    if after == domains + [c] {
      AppendedNameIsNew(tx, source, initial, seen, domains, c);
      AppendKeepsNames(tx, domains, c);
    } else if after != domains {
      assert domains[j] in domains;
      HostOwnerIsInjective(tx, domains[j].name, c.name);
      ReplaceKeepsNames(tx, domains, j, after[j]);
    }
  }

  lemma NamesStep(tx: Text, source: Source, initial: seq<Domain>, seen: seq<Domain>, domains: seq<Domain>,
                  result: ReconcileResult, c: Domain, now: string)
    requires Grown(source, initial, seen, domains) && FreshIds(initial, seen + [c])
    requires source != Manual && c.owner == HostOwner(tx, c.name) && forall e <- seen :: e.owner != c.owner
    requires DistinctNames(tx, domains) && OwnedByName(tx, domains)
    requires Consider(tx, source, Mine(initial, source), domains, result, c, now).Done?
    ensures var after := Consider(tx, source, Mine(initial, source), domains, result, c, now).domains;
            DistinctNames(tx, after) && OwnedByName(tx, after)
  {
    var after := Consider(tx, source, Mine(initial, source), domains, result, c, now).domains;
    var j := ConsiderHasEffect(tx, source, initial, seen, domains, result, c, now);
    NamesEffect(tx, source, initial, seen, domains, c, now, after, j);
  }

  lemma ImportedPrefix(tx: Text, source: Source, initial: seq<Domain>, wanted: seq<Domain>, n: nat)
    requires FreshIds(initial, wanted) && Imported(tx, source, wanted) && n < |wanted|
    ensures FreshIds(initial, wanted[..n]) && Imported(tx, source, wanted[..n])
    ensures forall e <- wanted[..n] :: e.owner != wanted[n].owner
  {
    forall e | e in wanted[..n] ensures e in wanted && e.owner != wanted[n].owner {
      var k :| 0 <= k < n && wanted[..n][k] == e;
      assert wanted[k].owner != wanted[n].owner;
    }
  }

  lemma ConsideredNamesStep(tx: Text, source: Source, initial: seq<Domain>, wanted: seq<Domain>, clock: nat -> string)
    requires |wanted| > 0 && DistinctIds(initial) && FreshIds(initial, wanted) && Imported(tx, source, wanted)
    requires var before := ConsiderAll(tx, source, initial, wanted[..|wanted| - 1], clock);
             before.Done? && DistinctNames(tx, before.domains) && OwnedByName(tx, before.domains)
    requires ConsiderAll(tx, source, initial, wanted, clock).Done?
    ensures var after := ConsiderAll(tx, source, initial, wanted, clock);
            DistinctNames(tx, after.domains) && OwnedByName(tx, after.domains)
  {
    var n := |wanted| - 1;
    var seen, c := wanted[..n], wanted[n];
    var before := ConsiderAll(tx, source, initial, seen, clock);
    ImportedPrefix(tx, source, initial, wanted, n);
    ConsiderAllGrows(tx, source, initial, seen, clock);
    SplitLast(wanted);
    NamesStep(tx, source, initial, seen, before.domains, before.result, c, clock(n));
  }

  lemma {:induction false} ConsideredNames(tx: Text, source: Source, initial: seq<Domain>, wanted: seq<Domain>,
                                           clock: nat -> string)
    requires DistinctIds(initial) && FreshIds(initial, wanted) && Imported(tx, source, wanted)
    requires DistinctNames(tx, initial) && OwnedByName(tx, initial)
    ensures var after := ConsiderAll(tx, source, initial, wanted, clock);
            after.Done? && DistinctNames(tx, after.domains) && OwnedByName(tx, after.domains)
  {
    DistinctOwnersNeverRaise(tx, source, initial, wanted, clock);
    if wanted != [] {
      ImportedPrefix(tx, source, initial, wanted, |wanted| - 1);
      ConsideredNames(tx, source, initial, wanted[..|wanted| - 1], clock);
      ConsideredNamesStep(tx, source, initial, wanted, clock);
    }
  }

  lemma SyncKeepsNames(tx: Text, domains: seq<Domain>, source: Source, wanted: seq<Domain>, clock: nat -> string)
    requires DistinctIds(domains) && FreshIds(domains, wanted) && Imported(tx, source, wanted)
    requires DistinctNames(tx, domains) && OwnedByName(tx, domains)
    ensures var after := ReconcileChange(tx, domains, source, wanted, clock);
            after.Done? && DistinctNames(tx, after.domains) && OwnedByName(tx, after.domains)
  {
    ConsideredNames(tx, source, domains, wanted, clock);
    ConsiderAllGrows(tx, source, domains, wanted, clock);
    var considered := ConsiderAll(tx, source, domains, wanted, clock).domains;
    var observed := Observed(wanted);
    SweepDropsTheStale(considered, source, observed);
    var r := Remaining(considered, source, observed);
    forall p, q | 0 <= p < q < |r| ensures Normalise(tx, r[p].name) != Normalise(tx, r[q].name) {
      var i, j := RemainingPicks(considered, source, observed, p, q);
    }
  }

  /** The runs the name claims are about: hand-made records are manual, nothing is renamed, and
      synchronisations come from an importer. */
  ghost predicate NoRenames(tx: Text, ops: seq<Op>) {
    forall op <- ops ::
      match op
      case Add(d) => d.source == Manual
      case Update(_, changes, _) => changes.name.None?
      case Sync(source, wanted, _) => Imported(tx, source, wanted)
      case _ => true
  }

  lemma OpKeepsNames(tx: Text, domains: seq<Domain>, op: Op)
    requires DistinctIds(domains) && FreshIds(domains, Introduced(op)) && NoRenames(tx, [op])
    requires DistinctNames(tx, domains) && OwnedByName(tx, domains)
    ensures DistinctNames(tx, Apply(tx, domains, op)) && OwnedByName(tx, Apply(tx, domains, op))
  {
    assert op in [op];
    match op
    case Sync(source, wanted, clock) => SyncKeepsNames(tx, domains, source, wanted, clock);
    case Add(d) =>
      if ByName(tx, domains, d.name).None? {
        AppendKeepsNames(tx, domains, d);
      }
    case Update(_, _, _) => EditKeepsNames(tx, domains, op);
    case Toggle(_, _, _) => EditKeepsNames(tx, domains, op);
    case Delete(id) =>
      if IndexById(domains, id).Some? {
        DropKeepsNames(tx, domains, IndexById(domains, id).value);
      }
  }

  lemma EditKeepsNames(tx: Text, domains: seq<Domain>, op: Op)
    requires (op.Update? && op.changes.name.None?) || op.Toggle?
    requires DistinctNames(tx, domains) && OwnedByName(tx, domains)
    ensures DistinctNames(tx, Apply(tx, domains, op)) && OwnedByName(tx, Apply(tx, domains, op))
  {
    var found := IndexById(domains, op.id);
    if found.Some? {
      ReplaceKeepsNames(tx, domains, found.value, Apply(tx, domains, op)[found.value]);
    }
  }

  lemma DropKeepsNames(tx: Text, domains: seq<Domain>, i: nat)
    requires i < |domains| && DistinctNames(tx, domains) && OwnedByName(tx, domains)
    ensures DistinctNames(tx, domains[..i] + domains[i + 1..]) && OwnedByName(tx, domains[..i] + domains[i + 1..])
  {
  }

  /** Names stay pairwise distinct, and no synchronisation is ever refused. */
  lemma {:induction false} NamesStayDistinct(tx: Text, ops: seq<Op>)
    requires WellFormedRun(ops) && NoRenames(tx, ops)
    ensures DistinctNames(tx, Run(tx, ops)) && OwnedByName(tx, Run(tx, ops))
  {
    if |ops| > 0 {
      var n := |ops| - 1;
      assert forall op <- ops[..n] :: op in ops;
      assert ops[n] in ops;
      NamesStayDistinct(tx, ops[..n]);
      RunIsFresh(tx, ops);
      assert NoRenames(tx, [ops[n]]);
      OpKeepsNames(tx, Run(tx, ops[..n]), ops[n]);
    }
  }

  /** Therefore, after any such run, every enabled record with a usable name resolves, in the
      zone compiled from the store, to its own address. */
  lemma EveryRecordResolves(tx: Text, ops: seq<Op>, serial: int, i: nat)
    requires tx.Lawful() && WellFormedRun(ops) && NoRenames(tx, ops)
    requires i < |Run(tx, ops)| && Run(tx, ops)[i].enabled && Validate(tx, Run(tx, ops)[i].name).Ok()
    ensures var d := Run(tx, ops)[i];
            var m := MatchName(tx, Compile(tx, Run(tx, ops), serial), d.name);
            m.Some? && m.value.address == d.address && m.value.apex == ApexOf(Normalise(tx, d.name))
  {
    NamesStayDistinct(tx, ops);
    OwnAddress(tx, Run(tx, ops), serial, i);
  }

  /** Renaming is what breaks it: `update` takes a name another record already has. */
  lemma RenameCanClash(tx: Text, a: Domain, b: Domain)
    requires a.source == Manual && a.id != b.id && a.name != b.name
    ensures var after := UpdateChange([a, b], a.id, Changes(Some(b.name), None, None, None), a.updatedAt);
            after.Done? && !DistinctNames(tx, after.domains)
  {
    var after := UpdateChange([a, b], a.id, Changes(Some(b.name), None, None, None), a.updatedAt);
    assert after.domains[0].name == after.domains[1].name;
  }

  /** Exactly when a rename is harmless: no other record has the new name. `update` does not
      ask. */
  lemma RenameKeepsNamesExactly(tx: Text, domains: seq<Domain>, i: nat, changes: Changes, now: string)
    requires i < |domains| && IndexById(domains, domains[i].id) == Some(i) && domains[i].source == Manual
    requires DistinctNames(tx, domains) && changes.name.Some?
    ensures var after := UpdateChange(domains, domains[i].id, changes, now);
            after.Done? && (DistinctNames(tx, after.domains) <==>
                forall j :: 0 <= j < |domains| && j != i ==> Normalise(tx, domains[j].name) != Normalise(tx, changes.name.value))
  {
    ReplaceNamesExactly(tx, domains, i, Touched(domains[i], changes, now));
  }

  lemma ReplaceNamesExactly(tx: Text, domains: seq<Domain>, i: nat, d: Domain)
    requires i < |domains| && DistinctNames(tx, domains)
    ensures DistinctNames(tx, domains[i := d])
            <==> forall j :: 0 <= j < |domains| && j != i ==> Normalise(tx, domains[j].name) != Normalise(tx, d.name)
  {
    var after := domains[i := d];
    if DistinctNames(tx, after) {
      forall j | 0 <= j < |domains| && j != i ensures Normalise(tx, domains[j].name) != Normalise(tx, d.name) {
        assert Normalise(tx, after[j].name) != Normalise(tx, after[i].name);
      }
    }
  }
}
