/** What a reconciliation reports: the daemon recompiles its zone only when a pass says that it
    changed something. */
module Reports {
  import opened Prelude
  import opened Texts
  import opened Model
  import opened Store
  import opened Reconciliation

  /** The lists of a result against the records: additions lengthen the list, updates alter an
      old record, and nothing else does either. */
  ghost predicate Told(initial: seq<Domain>, domains: seq<Domain>, result: ReconcileResult) {
    && result.removed == []
    && |initial| <= |domains| && (result.added == [] <==> |domains| == |initial|)
    && (result.updated == [] <==> domains[..|initial|] == initial)
  }

  lemma AppendTells(initial: seq<Domain>, domains: seq<Domain>, result: ReconcileResult, c: Domain)
    requires Told(initial, domains, result)
    ensures Told(initial, domains + [c], result.(added := result.added + [c.name]))
  {
    assert (domains + [c])[..|initial|] == domains[..|initial|];
  }

  /** An old record is updated at most once, so no later update can undo it. */
  lemma ReplaceTells(initial: seq<Domain>, domains: seq<Domain>, result: ReconcileResult, j: nat, d: Domain, name: string)
    requires Told(initial, domains, result) && j < |initial| && domains[j] == initial[j] && d != initial[j]
    ensures Told(initial, domains[j := d], result.(updated := result.updated + [name]))
  {
    assert domains[j := d][..|initial|][j] == d;
  }

  lemma MergeTells(source: Source, initial: seq<Domain>, seen: seq<Domain>, domains: seq<Domain>, result: ReconcileResult,
                   c: Domain, now: string)
    requires Grown(source, initial, seen, domains) && Told(initial, domains, result)
    requires c.owner != "" && c.owner in Mine(initial, source) && c.owner !in Observed(seen)
    requires Merged(Mine(initial, source)[c.owner], c) != Mine(initial, source)[c.owner]
    requires forall d <- initial, e <- seen :: d.id != e.id
    ensures var current := Mine(initial, source)[c.owner];
            var i := IndexOf(domains, current);
            i.Some? ==> Told(initial, domains[i.value := Merged(current, c).(updatedAt := now)],
                             result.(updated := result.updated + [c.name]))
  {
    var current := Mine(initial, source)[c.owner];
    var j := PlaceOf(initial, current);
    if IndexOf(domains, current).Some? {
      IndexIsThePlace(source, initial, seen, domains, j);
      ReplaceTells(initial, domains, result, j, Merged(current, c).(updatedAt := now), c.name);
    }
  }

  lemma ConsiderTells(tx: Text, source: Source, initial: seq<Domain>, seen: seq<Domain>, domains: seq<Domain>,
                      result: ReconcileResult, c: Domain, now: string)
    requires Grown(source, initial, seen, domains) && Told(initial, domains, result)
    requires c.owner !in Observed(seen) && forall d <- initial, e <- seen :: d.id != e.id
    ensures var after := Consider(tx, source, Mine(initial, source), domains, result, c, now);
            after.Done? ==> Told(initial, after.domains, after.result)
  {
    var mine := Mine(initial, source);
    if c.owner != "" && !Clashes(tx, domains, source, c.name) {
      if c.owner !in mine {
        AppendTells(initial, domains, result, c);
      } else if Merged(mine[c.owner], c) != mine[c.owner] {
        MergeTells(source, initial, seen, domains, result, c, now);
      }
    }
  }

  lemma {:induction false} LoopTells(tx: Text, source: Source, initial: seq<Domain>, wanted: seq<Domain>, clock: nat -> string)
    requires DistinctIds(initial) && FreshIds(initial, wanted) && DistinctOwners(wanted)
    ensures var after := ConsiderAll(tx, source, initial, wanted, clock);
            after.Done? && Told(initial, after.domains, after.result)
  {
    DistinctOwnersNeverRaise(tx, source, initial, wanted, clock);
    if wanted == [] {
      WholePrefix(initial);
    } else {
      var n := |wanted| - 1;
      var seen := wanted[..n];
      LoopTells(tx, source, initial, seen, clock);
      ConsiderAllGrows(tx, source, initial, seen, clock);
      var before := ConsiderAll(tx, source, initial, seen, clock);
      assert wanted[n].owner !in Observed(seen);
      ConsiderTells(tx, source, initial, seen, before.domains, before.result, wanted[n], clock(n));
    }
  }

  /** The sweep reports nothing exactly if nothing was stale, and then removes nothing. */
  lemma SweepTells(domains: seq<Domain>, source: Source, observed: set<string>, result: ReconcileResult)
    requires result.removed == []
    ensures var after := Swept(domains, source, observed, result);
            && (after.result.removed == [] <==> StaleOnes(domains, source, observed) == [])
            && (after.result.removed == [] ==> after.domains == domains)
            && after.result.added == result.added && after.result.updated == result.updated
  {
    var stale := StaleOnes(domains, source, observed);
    if stale == [] {
      assert IdsOf(stale) == {};
      WithoutNothing(domains);
    } else {
      assert |NamesOf(stale)| > 0;
    }
  }

  /** A record nobody had before, or one that differs from its old self, stays where it is. */
  lemma ToldShows(source: Source, initial: seq<Domain>, wanted: seq<Domain>, considered: seq<Domain>)
    requires Grown(source, initial, wanted, considered) && FreshIds(initial, wanted) && DistinctIds(initial)
    requires |considered| > |initial| || considered[..|initial|] != initial
    ensures Remaining(considered, source, Observed(wanted)) != initial
  {
    var after := Remaining(considered, source, Observed(wanted));
    if |considered| > |initial| {
      var d := considered[|initial|];
      assert d in wanted && d in after;
      assert forall e <- initial :: e.id != d.id;
    } else {
      var j :| 0 <= j < |initial| && considered[j] != initial[j];
      assert considered[j] in after;
      forall k | 0 <= k < |initial| ensures initial[k] != considered[j] {
        assert k != j ==> initial[k].id != initial[j].id;
      }
    }
  }

  lemma StaleShows(source: Source, initial: seq<Domain>, wanted: seq<Domain>, considered: seq<Domain>)
    requires Grown(source, initial, wanted, considered) && StaleOnes(considered, source, Observed(wanted)) != []
    ensures Remaining(considered, source, Observed(wanted)) != initial
  {
    var d := StaleOnes(considered, source, Observed(wanted))[0];
    var i := PlaceOf(considered, d);
    assert forall e <- wanted :: e.owner != "" ==> e.owner in Observed(wanted);
    assert Stale(initial[i], source, Observed(wanted)) && initial[i] in initial;
  }

  /** A pass reports a change if and only if it changed the records, so a daemon that goes on
      with its zone when nothing is reported goes on with the right one. */
  lemma ReportedExactlyWhenChanged(tx: Text, source: Source, initial: seq<Domain>, wanted: seq<Domain>, clock: nat -> string)
    requires DistinctIds(initial) && FreshIds(initial, wanted) && DistinctOwners(wanted)
    ensures var after := ReconcileChange(tx, initial, source, wanted, clock);
            after.Done? && (after.result.Changed() <==> after.domains != initial)
  {
    LoopTells(tx, source, initial, wanted, clock);
    ConsiderAllGrows(tx, source, initial, wanted, clock);
    var considered := ConsiderAll(tx, source, initial, wanted, clock);
    WholeReport(source, initial, wanted, considered.domains, considered.result);
  }

  lemma WholeReport(source: Source, initial: seq<Domain>, wanted: seq<Domain>, considered: seq<Domain>, result: ReconcileResult)
    requires Grown(source, initial, wanted, considered) && Told(initial, considered, result)
    requires DistinctIds(initial) && FreshIds(initial, wanted)
    ensures var after := Swept(considered, source, Observed(wanted), result);
            after.result.Changed() <==> after.domains != initial
  {
    SweepTells(considered, source, Observed(wanted), result);
    SweepDropsTheStale(considered, source, Observed(wanted));
    if |considered| > |initial| || considered[..|initial|] != initial {
      ToldShows(source, initial, wanted, considered);
    } else {
      WholePrefix(considered);
      if StaleOnes(considered, source, Observed(wanted)) != [] {
        StaleShows(source, initial, wanted, considered);
      }
    }
  }
}
