/** What a synchronisation makes of each thing it observed, field by field. */
module Takeover {
  import opened Prelude
  import opened Texts
  import opened Names
  import opened Model
  import opened Store
  import opened Reconciliation
  import opened Fixpoint

  predicate Own(d: Domain, source: Source, owner: string) { d.source == source && d.owner == owner }

  /** Record `d` as it must be once `c` was observed at `now`: what the user pinned stays, the rest is
      as observed, and only a record that changed has a new stamp. */
  predicate Follows(d: Domain, c: Domain, e: Domain, now: string) {
    && SameIdentity(d, e)
    && e.name == (if "name" in d.pinnedFields then d.name else c.name)
    && e.address == (if "address" in d.pinnedFields then d.address else c.address)
    && e.note == (if "note" in d.pinnedFields then d.note else c.note)
    && e.updatedAt == if e.name == d.name && e.address == d.address && e.note == d.note then d.updatedAt else now
  }

  /** No record of another source bears the name. */
  predicate Free(tx: Text, initial: seq<Domain>, source: Source, name: string) {
    forall d <- initial :: d.source != source ==> Normalise(tx, d.name) != Normalise(tx, name)
  }

  predicate Reported(d: Domain, e: Domain, c: Domain, result: ReconcileResult) { e != d ==> c.name in result.updated }

  /** What became of candidate `c`: its record follows it, or it is a record now. */
  ghost predicate TakenOver(source: Source, initial: seq<Domain>, domains: seq<Domain>, result: ReconcileResult,
                            c: Domain, now: string)
  {
    && (forall d <- initial :: Own(d, source, c.owner) ==>
          exists e :: e in domains && Follows(d, c, e, now) && Reported(d, e, c, result))
    && ((forall d <- initial :: !Own(d, source, c.owner)) ==> c in domains && c.name in result.added)
  }

  predicate ResultGrows(a: ReconcileResult, b: ReconcileResult) {
    a.added <= b.added && a.updated <= b.updated && a.conflicts <= b.conflicts
  }

  /** The last record of an owner. */
  predicate LastOwn(domains: seq<Domain>, source: Source, owner: string, i: nat) {
    i < |domains| && Own(domains[i], source, owner) && forall j :: i < j < |domains| ==> !Own(domains[j], source, owner)
  }

  lemma LastOwnOfMore(domains: seq<Domain>, source: Source, owner: string, i: nat)
    requires domains != [] && !Own(domains[|domains| - 1], source, owner)
    requires LastOwn(domains[..|domains| - 1], source, owner, i)
    ensures LastOwn(domains, source, owner, i)
  {
    var n := |domains| - 1;
    forall j | i < j < |domains| ensures !Own(domains[j], source, owner) {
      assert j < n ==> domains[j] == domains[..n][j];
    }
  }

  lemma MineOfLast(domains: seq<Domain>, source: Source, owner: string)
    requires domains != [] && owner in Mine(domains, source)
    ensures var n := |domains| - 1;
            if Own(domains[n], source, owner) then Mine(domains, source)[owner] == domains[n]
            else owner in Mine(domains[..n], source) && Mine(domains[..n], source)[owner] == Mine(domains, source)[owner]
  {
  }

  /** Where an owner has several records of the source, the dictionary has the last of them. */
  lemma {:induction false} LastOwnWins(domains: seq<Domain>, source: Source, owner: string) returns (i: nat)
    requires owner in Mine(domains, source)
    ensures LastOwn(domains, source, owner, i) && domains[i] == Mine(domains, source)[owner]
  {
    var n := |domains| - 1;
    MineOfLast(domains, source, owner);
    if Own(domains[n], source, owner) {
      i := n;
    } else {
      i := LastOwnWins(domains[..n], source, owner);
      LastOwnOfMore(domains, source, owner, i);
    }
  }

  // ---- one candidate ----

  lemma FreeNeverClashes(tx: Text, source: Source, initial: seq<Domain>, seen: seq<Domain>, domains: seq<Domain>, c: Domain)
    requires Grown(source, initial, seen, domains) && AllFrom(source, seen) && Free(tx, initial, source, c.name)
    ensures !Clashes(tx, domains, source, c.name)
  {
    forall e | e in domains && e.source != source ensures e in initial {
      var i := PlaceOf(domains, e);
      if i < |initial| {
        assert SameIdentity(initial[i], e);
      }
    }
  }

  /** The own record of an owner nobody has mentioned yet is still in its place, and is the one the
      dictionary has. */
  lemma OwnIsInPlace(source: Source, initial: seq<Domain>, seen: seq<Domain>, domains: seq<Domain>, d: Domain) returns (j: nat)
    requires Grown(source, initial, seen, domains) && OneEach(initial, source) && DistinctIds(initial)
    requires d in initial && d.source == source && d.owner != "" && d.owner !in Observed(seen)
    ensures j < |initial| && initial[j] == d == domains[j]
    ensures d.owner in Mine(initial, source) && Mine(initial, source)[d.owner] == d
  {
    j := PlaceOf(initial, d);
    var k := PlaceOf(initial, Mine(initial, source)[d.owner]);
    assert j == k;
  }

  lemma FollowsMerged(d: Domain, c: Domain, now: string)
    ensures Merged(d, c) != d ==> Follows(d, c, Merged(d, c).(updatedAt := now), now)
    ensures Merged(d, c) == d ==> Follows(d, c, d, now)
  {
  }

  lemma ConsiderTakesOver(tx: Text, source: Source, initial: seq<Domain>, seen: seq<Domain>, domains: seq<Domain>,
                          result: ReconcileResult, c: Domain, now: string)
    requires Grown(source, initial, seen, domains) && FreshIds(initial, seen + [c]) && AllFrom(source, seen)
    requires OneEach(initial, source) && DistinctIds(initial)
    requires c.owner != "" && c.owner !in Observed(seen) && Free(tx, initial, source, c.name)
    requires Consider(tx, source, Mine(initial, source), domains, result, c, now).Done?
    ensures var after := Consider(tx, source, Mine(initial, source), domains, result, c, now);
            TakenOver(source, initial, after.domains, after.result, c, now)
  {
    FreeNeverClashes(tx, source, initial, seen, domains, c);
    var mine := Mine(initial, source);
    var after := Consider(tx, source, mine, domains, result, c, now);
    forall d | d in initial && Own(d, source, c.owner)
      ensures exists e :: e in after.domains && Follows(d, c, e, now) && Reported(d, e, c, after.result)
    {
      var j := OwnIsInPlace(source, initial, seen, domains, d);
      FollowsMerged(d, c, now);
      if Merged(d, c) == d {
        assert d in after.domains && Reported(d, d, c, after.result);
      } else {
        assert forall x <- seen :: x in seen + [c];
        IndexIsThePlace(source, initial, seen, domains, j);
        var e := Merged(d, c).(updatedAt := now);
        assert after.domains[j] == e && Reported(d, e, c, after.result);
      }
    }
    if forall d <- initial :: !Own(d, source, c.owner) {
      assert c.owner !in mine;
      assert after.domains[|domains|] == c;
    }
  }

  /** Another candidate changes nothing about it. */
  lemma TakenOverStays(source: Source, initial: seq<Domain>, seen: seq<Domain>, domains: seq<Domain>, result: ReconcileResult,
                       tx: Text, x: Domain, later: string, after: seq<Domain>, result': ReconcileResult, j: nat, c: Domain,
                       now: string)
    requires Grown(source, initial, seen, domains) && Effect(tx, source, initial, domains, x, later, after, j)
    requires ResultGrows(result, result') && x.owner != c.owner
    requires c.source == source && TakenOver(source, initial, domains, result, c, now)
    ensures TakenOver(source, initial, after, result', c, now)
  {
    forall e | e in domains && e.owner == c.owner ensures e in after {
      var i := PlaceOf(domains, e);
      if |after| == |domains| && after != domains {
        assert i != j;
      }
      assert after[i] == e;
    }
    forall d | d in initial && Own(d, source, c.owner)
      ensures exists e :: e in after && Follows(d, c, e, now) && Reported(d, e, c, result')
    {
      var e :| e in domains && Follows(d, c, e, now) && Reported(d, e, c, result);
      assert e in after && Reported(d, e, c, result');
    }
  }

  lemma ConsiderResultGrows(tx: Text, source: Source, mine: map<string, Domain>, domains: seq<Domain>, result: ReconcileResult,
                            c: Domain, now: string)
    ensures var after := Consider(tx, source, mine, domains, result, c, now);
            after.Done? ==> ResultGrows(result, after.result)
  {
  }

  // ---- names that somebody else has ----

  /** Another source has the name, and neither an own record nor another candidate does. */
  predicate Held(tx: Text, initial: seq<Domain>, source: Source, wanted: seq<Domain>, c: Domain) {
    && !Free(tx, initial, source, c.name)
    && (forall d <- initial :: d.source == source ==> Normalise(tx, d.name) != Normalise(tx, c.name))
    && (forall x <- wanted :: x != c ==> Normalise(tx, x.name) != Normalise(tx, c.name))
  }

  /** Nothing becomes of candidate `c`; its record, if it has one, stays as it was. */
  ghost predicate Refused(source: Source, initial: seq<Domain>, domains: seq<Domain>, result: ReconcileResult, c: Domain) {
    && c.name in result.conflicts
    && (forall d <- initial :: Own(d, source, c.owner) ==> d in domains)
    && ((forall d <- initial :: !Own(d, source, c.owner)) ==> forall e <- domains :: !Own(e, source, c.owner))
  }

  /** The names of a source's records are names they had or names somebody observed. */
  ghost predicate Named(source: Source, initial: seq<Domain>, seen: seq<Domain>, domains: seq<Domain>) {
    forall d <- domains :: d.source == source ==>
      (exists e :: e in initial && e.source == source && e.name == d.name) || (exists e :: e in seen && e.name == d.name)
  }

  lemma NamedStays(tx: Text, source: Source, initial: seq<Domain>, seen: seq<Domain>, domains: seq<Domain>, c: Domain,
                   now: string, after: seq<Domain>, j: nat)
    requires Named(source, initial, seen, domains) && Effect(tx, source, initial, domains, c, now, after, j)
    ensures Named(source, initial, seen + [c], after)
  {
    assert c in seen + [c] && forall e <- seen :: e in seen + [c];
    forall d | d in after && d.source == source
      ensures (exists e :: e in initial && e.source == source && e.name == d.name)
              || (exists e :: e in seen + [c] && e.name == d.name)
    {
      if d in domains {
        if e :| e in initial && e.source == source && e.name == d.name {
        } else {
          var e :| e in seen && e.name == d.name;
          assert e in seen + [c];
        }
      } else if d != c {
        assert initial[j] in initial;
      }
    }
  }

  lemma HeldClashes(tx: Text, source: Source, initial: seq<Domain>, seen: seq<Domain>, domains: seq<Domain>, c: Domain)
    requires Grown(source, initial, seen, domains) && Named(source, initial, seen, domains)
    requires Held(tx, initial, source, seen, c) && c !in seen
    ensures Clashes(tx, domains, source, c.name)
  {
    var d :| d in initial && d.source != source && Normalise(tx, d.name) == Normalise(tx, c.name);
    var i := PlaceOf(initial, d);
    assert domains[i] == d && d in domains;
    var found := ByName(tx, domains, c.name).value;
    assert found in domains;
  }

  lemma ConsiderRefuses(tx: Text, source: Source, initial: seq<Domain>, seen: seq<Domain>, domains: seq<Domain>,
                        result: ReconcileResult, c: Domain, now: string)
    requires Grown(source, initial, seen, domains) && Named(source, initial, seen, domains) && DistinctIds(initial)
    requires c.owner != "" && c.owner !in Observed(seen) && c !in seen && Held(tx, initial, source, seen, c)
    ensures var after := Consider(tx, source, Mine(initial, source), domains, result, c, now);
            after.Done? && Refused(source, initial, after.domains, after.result, c)
  {
    HeldClashes(tx, source, initial, seen, domains, c);
    forall d | d in initial && Own(d, source, c.owner) ensures d in domains {
      var i := PlaceOf(initial, d);
      assert domains[i] == initial[i];
    }
    if forall d <- initial :: !Own(d, source, c.owner) {
      forall e | e in domains ensures !Own(e, source, c.owner) {
        var i := PlaceOf(domains, e);
        if i < |initial| {
          assert SameIdentity(initial[i], e) && initial[i] in initial;
        } else {
          assert e in seen && e.owner in Observed(seen);
        }
      }
    }
  }

  lemma RefusedStays(source: Source, initial: seq<Domain>, seen: seq<Domain>, domains: seq<Domain>, result: ReconcileResult,
                     tx: Text, x: Domain, later: string, after: seq<Domain>, result': ReconcileResult, j: nat, c: Domain)
    requires Grown(source, initial, seen, domains) && Effect(tx, source, initial, domains, x, later, after, j)
    requires ResultGrows(result, result') && x.owner != c.owner && Refused(source, initial, domains, result, c)
    ensures Refused(source, initial, after, result', c)
  {
    forall e | e in domains && e.owner == c.owner ensures e in after {
      var i := PlaceOf(domains, e);
      if |after| == |domains| && after != domains {
        assert i != j;
      }
      assert after[i] == e;
    }
    if forall d <- initial :: !Own(d, source, c.owner) {
      forall e | e in after ensures !Own(e, source, c.owner) {
        if e !in domains && e != x {
          assert SameIdentity(initial[j], e);
        }
      }
    }
  }

  // ---- the whole loop ----

  ghost predicate Treated(tx: Text, source: Source, initial: seq<Domain>, wanted: seq<Domain>, domains: seq<Domain>,
                          result: ReconcileResult, c: Domain, now: string)
  {
    && (Free(tx, initial, source, c.name) ==> TakenOver(source, initial, domains, result, c, now))
    && (Held(tx, initial, source, wanted, c) ==> Refused(source, initial, domains, result, c))
  }

  /** Everything said about the candidates so far. */
  ghost predicate AllTreated(tx: Text, source: Source, initial: seq<Domain>, seen: seq<Domain>, wanted: seq<Domain>,
                             domains: seq<Domain>, result: ReconcileResult, clock: nat -> string)
  {
    forall k :: 0 <= k < |seen| && seen[k].owner != "" ==>
      Treated(tx, source, initial, wanted, domains, result, seen[k], clock(k))
  }

  lemma ConsiderNames(tx: Text, source: Source, initial: seq<Domain>, seen: seq<Domain>, domains: seq<Domain>,
                      result: ReconcileResult, c: Domain, now: string)
    requires Grown(source, initial, seen, domains) && FreshIds(initial, seen + [c]) && Named(source, initial, seen, domains)
    requires Consider(tx, source, Mine(initial, source), domains, result, c, now).Done?
    ensures Named(source, initial, seen + [c], Consider(tx, source, Mine(initial, source), domains, result, c, now).domains)
  {
    var j := ConsiderHasEffect(tx, source, initial, seen, domains, result, c, now);
    NamedStays(tx, source, initial, seen, domains, c, now,
               Consider(tx, source, Mine(initial, source), domains, result, c, now).domains, j);
  }

  lemma NewIsTreated(tx: Text, source: Source, initial: seq<Domain>, seen: seq<Domain>, wanted: seq<Domain>,
                     domains: seq<Domain>, result: ReconcileResult, c: Domain, now: string)
    requires Grown(source, initial, seen, domains) && FreshIds(initial, seen + [c]) && Named(source, initial, seen, domains)
    requires OneEach(initial, source) && DistinctIds(initial) && AllFrom(source, seen)
    requires (forall e <- seen :: e.owner != c.owner && e in wanted) && c.owner != ""
    requires Consider(tx, source, Mine(initial, source), domains, result, c, now).Done?
    ensures var after := Consider(tx, source, Mine(initial, source), domains, result, c, now);
            Treated(tx, source, initial, wanted, after.domains, after.result, c, now)
  {
    assert c.owner !in Observed(seen) && c !in seen;
    if Free(tx, initial, source, c.name) {
      ConsiderTakesOver(tx, source, initial, seen, domains, result, c, now);
    }
    if Held(tx, initial, source, wanted, c) {
      ConsiderRefuses(tx, source, initial, seen, domains, result, c, now);
    }
  }

  lemma OldIsTreated(tx: Text, source: Source, initial: seq<Domain>, seen: seq<Domain>, wanted: seq<Domain>,
                     domains: seq<Domain>, result: ReconcileResult, x: Domain, later: string, c: Domain, now: string)
    requires Grown(source, initial, seen, domains) && FreshIds(initial, seen + [x]) && x.owner != c.owner && c.source == source
    requires Treated(tx, source, initial, wanted, domains, result, c, now)
    requires Consider(tx, source, Mine(initial, source), domains, result, x, later).Done?
    ensures var after := Consider(tx, source, Mine(initial, source), domains, result, x, later);
            Treated(tx, source, initial, wanted, after.domains, after.result, c, now)
  {
    var after := Consider(tx, source, Mine(initial, source), domains, result, x, later);
    var j := ConsiderHasEffect(tx, source, initial, seen, domains, result, x, later);
    ConsiderResultGrows(tx, source, Mine(initial, source), domains, result, x, later);
    if Free(tx, initial, source, c.name) {
      TakenOverStays(source, initial, seen, domains, result, tx, x, later, after.domains, after.result, j, c, now);
    }
    if Held(tx, initial, source, wanted, c) {
      RefusedStays(source, initial, seen, domains, result, tx, x, later, after.domains, after.result, j, c);
    }
  }

  lemma OneMoreTreated(tx: Text, source: Source, initial: seq<Domain>, seen: seq<Domain>, c: Domain, wanted: seq<Domain>,
                       domains: seq<Domain>, result: ReconcileResult, clock: nat -> string)
    requires DistinctIds(initial) && FreshIds(initial, seen + [c]) && OneEach(initial, source)
    requires (forall e <- seen :: e.owner != c.owner && e in wanted) && AllFrom(source, seen)
    requires Grown(source, initial, seen, domains) && Named(source, initial, seen, domains)
    requires AllTreated(tx, source, initial, seen, wanted, domains, result, clock)
    requires Consider(tx, source, Mine(initial, source), domains, result, c, clock(|seen|)).Done?
    ensures var after := Consider(tx, source, Mine(initial, source), domains, result, c, clock(|seen|));
            AllTreated(tx, source, initial, seen + [c], wanted, after.domains, after.result, clock)
  {
    var after := Consider(tx, source, Mine(initial, source), domains, result, c, clock(|seen|));
    forall k | 0 <= k < |seen| + 1 && (seen + [c])[k].owner != ""
      ensures Treated(tx, source, initial, wanted, after.domains, after.result, (seen + [c])[k], clock(k))
    {
      if k == |seen| {
        NewIsTreated(tx, source, initial, seen, wanted, domains, result, c, clock(k));
      } else {
        assert seen[k] in seen;
        OldIsTreated(tx, source, initial, seen, wanted, domains, result, c, clock(|seen|), seen[k], clock(k));
      }
    }
  }

  lemma OthersSeen(seen: seq<Domain>, c: Domain, wanted: seq<Domain>)
    requires DistinctOwners(seen + [c]) && seen + [c] <= wanted
    ensures forall e <- seen :: e.owner != c.owner && e in wanted
  {
    forall e | e in seen ensures e.owner != c.owner && e in wanted {
      var k := PlaceOf(seen, e);
      assert (seen + [c])[k] == e && (seen + [c])[|seen|] == c && wanted[k] == e;
    }
  }

  lemma {:induction false} LoopTreats(tx: Text, source: Source, initial: seq<Domain>, seen: seq<Domain>, wanted: seq<Domain>,
                                      clock: nat -> string)
    requires DistinctIds(initial) && FreshIds(initial, seen) && OneEach(initial, source)
    requires DistinctOwners(seen) && AllFrom(source, seen) && seen <= wanted
    ensures var after := ConsiderAll(tx, source, initial, seen, clock);
            && after.Done? && Named(source, initial, seen, after.domains)
            && AllTreated(tx, source, initial, seen, wanted, after.domains, after.result, clock)
  {
    DistinctOwnersNeverRaise(tx, source, initial, seen, clock);
    if seen != [] {
      var n := |seen| - 1;
      LoopTreats(tx, source, initial, seen[..n], wanted, clock);
      var before := ConsiderAll(tx, source, initial, seen[..n], clock);
      ConsiderAllGrows(tx, source, initial, seen[..n], clock);
      SplitLast(seen);
      OthersSeen(seen[..n], seen[n], wanted);
      ConsiderNames(tx, source, initial, seen[..n], before.domains, before.result, seen[n], clock(n));
      OneMoreTreated(tx, source, initial, seen[..n], seen[n], wanted, before.domains, before.result, clock);
    }
  }

  /** What one pass does with the k-th thing observed. If no other source has its name, its record
      follows it, field by field but for the pinned ones, or it becomes a record as it is. If
      another source has its name, nothing happens but that it is reported. */
  lemma ObservedIsTakenOver(tx: Text, source: Source, initial: seq<Domain>, wanted: seq<Domain>, clock: nat -> string, k: nat)
    requires DistinctIds(initial) && FreshIds(initial, wanted) && OneEach(initial, source)
    requires DistinctOwners(wanted) && AllFrom(source, wanted) && k < |wanted| && wanted[k].owner != ""
    ensures var after := ReconcileChange(tx, initial, source, wanted, clock);
            && after.Done?
            && (Free(tx, initial, source, wanted[k].name) ==>
                  TakenOver(source, initial, after.domains, after.result, wanted[k], clock(k)))
            && (Held(tx, initial, source, wanted, wanted[k]) ==>
                  Refused(source, initial, after.domains, after.result, wanted[k]))
  {
    LoopTreats(tx, source, initial, wanted, wanted, clock);
    ConsiderAllGrows(tx, source, initial, wanted, clock);
    var considered := ConsiderAll(tx, source, initial, wanted, clock);
    SweepDropsTheStale(considered.domains, source, Observed(wanted));
    var c := wanted[k];
    assert Treated(tx, source, initial, wanted, considered.domains, considered.result, c, clock(k));
    assert c.owner in Observed(wanted);
    SweptStays(source, initial, wanted, considered.domains, considered.result, c, clock(k));
  }

  lemma SweptStays(source: Source, initial: seq<Domain>, wanted: seq<Domain>, domains: seq<Domain>, result: ReconcileResult,
                   c: Domain, now: string)
    requires c.owner in Observed(wanted) && c.source == source
    requires WithoutIds(domains, IdsOf(StaleOnes(domains, source, Observed(wanted)))) == Remaining(domains, source, Observed(wanted))
    ensures var after := Swept(domains, source, Observed(wanted), result);
            && (TakenOver(source, initial, domains, result, c, now) ==>
                  TakenOver(source, initial, after.domains, after.result, c, now))
            && (Refused(source, initial, domains, result, c) ==> Refused(source, initial, after.domains, after.result, c))
  {
    var after := Swept(domains, source, Observed(wanted), result);
    assert forall e <- domains :: e.owner == c.owner ==> e in after.domains;
    if TakenOver(source, initial, domains, result, c, now) {
      forall d | d in initial && Own(d, source, c.owner)
        ensures exists e :: e in after.domains && Follows(d, c, e, now) && Reported(d, e, c, after.result)
      {
        var e :| e in domains && Follows(d, c, e, now) && Reported(d, e, c, result);
        assert e in after.domains && Reported(d, e, c, after.result);
      }
    }
  }

  /** The source owns the record, and nobody observed its owner. */
  predicate Unobserved(d: Domain, source: Source, wanted: seq<Domain>) {
    d.source == source && d.owner != "" && forall c <- wanted :: c.owner != d.owner
  }

  /** What went away is reported, and nothing else: the names of the records of the source that
      were not observed. */
  lemma RemovedAreReported(tx: Text, source: Source, initial: seq<Domain>, wanted: seq<Domain>, clock: nat -> string, name: string)
    requires DistinctIds(initial) && FreshIds(initial, wanted) && DistinctOwners(wanted)
    ensures var after := ReconcileChange(tx, initial, source, wanted, clock);
            && after.Done?
            && (name in after.result.removed <==> exists d :: d in initial && d.name == name && Unobserved(d, source, wanted))
  {
    DistinctOwnersNeverRaise(tx, source, initial, wanted, clock);
    ConsiderAllGrows(tx, source, initial, wanted, clock);
    var considered := ConsiderAll(tx, source, initial, wanted, clock);
    NothingRemovedYet(tx, source, initial, wanted, clock);
    StaleNames(source, initial, wanted, considered.domains, name);
    SweptNames(considered.domains, source, Observed(wanted), considered.result);
  }

  lemma SweptNames(domains: seq<Domain>, source: Source, observed: set<string>, result: ReconcileResult)
    requires result.removed == []
    ensures Swept(domains, source, observed, result).result.removed == NamesOf(StaleOnes(domains, source, observed))
  {
    NothingBefore(NamesOf(StaleOnes(domains, source, observed)));
  }

  lemma NothingBefore(names: seq<string>)
    ensures [] + names == names
  {
  }

  lemma StaleNames(source: Source, initial: seq<Domain>, wanted: seq<Domain>, domains: seq<Domain>, name: string)
    requires Grown(source, initial, wanted, domains)
    ensures name in NamesOf(StaleOnes(domains, source, Observed(wanted))) <==>
            exists d :: d in initial && d.name == name && Unobserved(d, source, wanted)
  {
    var stale := StaleOnes(domains, source, Observed(wanted));
    if name in NamesOf(stale) {
      var i := PlaceOf(NamesOf(stale), name);
      var j := PlaceOf(domains, stale[i]);
      assert domains[j].owner !in Observed(wanted) && forall c <- wanted :: c.owner != "" ==> c.owner in Observed(wanted);
      assert initial[j] == stale[i] && initial[j] in initial;
    }
    if d :| d in initial && d.name == name && Unobserved(d, source, wanted) {
      var j := PlaceOf(initial, d);
      assert domains[j] == d && d in stale;
      var i := PlaceOf(stale, d);
      assert NamesOf(stale)[i] == name;
    }
  }

  lemma ConsiderRemovesNothing(tx: Text, source: Source, mine: map<string, Domain>, domains: seq<Domain>,
                               result: ReconcileResult, c: Domain, now: string)
    ensures var after := Consider(tx, source, mine, domains, result, c, now);
            after.Done? ==> after.result.removed == result.removed
  {
  }

  lemma {:induction false} NothingRemovedYet(tx: Text, source: Source, initial: seq<Domain>, wanted: seq<Domain>,
                                             clock: nat -> string)
    ensures var after := ConsiderAll(tx, source, initial, wanted, clock); after.Done? ==> after.result.removed == []
  {
    if wanted != [] {
      var n := |wanted| - 1;
      NothingRemovedYet(tx, source, initial, wanted[..n], clock);
      var before := ConsiderAll(tx, source, initial, wanted[..n], clock);
      if before.Done? {
        ConsiderRemovesNothing(tx, source, Mine(initial, source), before.domains, before.result, wanted[n], clock(n));
      }
    }
  }

  /** How many have no owner. */
  function Ownerless(wanted: seq<Domain>): nat {
    if wanted == [] then 0
    else Ownerless(wanted[..|wanted| - 1]) + if wanted[|wanted| - 1].owner == "" then 1 else 0
  }

  lemma ConsiderCounts(tx: Text, source: Source, mine: map<string, Domain>, domains: seq<Domain>, result: ReconcileResult,
                       c: Domain, now: string)
    ensures var after := Consider(tx, source, mine, domains, result, c, now);
            after.Done? ==>
              && after.result.skippedNoOwner == result.skippedNoOwner + (if c.owner == "" then 1 else 0)
              && (c.owner == "" ==> after.domains == domains)
  {
  }

  /** What has no owner is counted, and nothing becomes of it. */
  lemma {:induction false} OwnerlessAreCounted(tx: Text, source: Source, initial: seq<Domain>, wanted: seq<Domain>,
                                               clock: nat -> string)
    ensures var after := ConsiderAll(tx, source, initial, wanted, clock);
            after.Done? ==> after.result.skippedNoOwner == Ownerless(wanted)
  {
    if wanted != [] {
      var n := |wanted| - 1;
      OwnerlessAreCounted(tx, source, initial, wanted[..n], clock);
      var before := ConsiderAll(tx, source, initial, wanted[..n], clock);
      if before.Done? {
        ConsiderCounts(tx, source, Mine(initial, source), before.domains, before.result, wanted[n], clock(n));
      }
    }
  }

  /** A pass reports how many of the things observed had no owner, and no new record is without one. */
  lemma OwnerlessAreSkipped(tx: Text, source: Source, initial: seq<Domain>, wanted: seq<Domain>, clock: nat -> string, d: Domain)
    requires DistinctIds(initial) && FreshIds(initial, wanted)
    requires ReconcileChange(tx, initial, source, wanted, clock).Done?
    ensures var after := ReconcileChange(tx, initial, source, wanted, clock);
            && after.result.skippedNoOwner == Ownerless(wanted)
            && (d in after.domains && d.owner == "" ==> exists e :: e in initial && SameIdentity(e, d))
  {
    OwnerlessAreCounted(tx, source, initial, wanted, clock);
    ConsiderAllGrows(tx, source, initial, wanted, clock);
    var considered := ConsiderAll(tx, source, initial, wanted, clock).domains;
    if d in ReconcileChange(tx, initial, source, wanted, clock).domains && d.owner == "" {
      var i := PlaceOf(considered, d);
      assert initial[i] in initial && SameIdentity(initial[i], d);
    }
  }
}
