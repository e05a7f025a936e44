/** Importing the same listing twice changes nothing the second time. */
module Fixpoint {
  import opened Prelude
  import opened Texts
  import opened Names
  import opened Model
  import opened Store
  import opened Reconciliation

  /** Two candidates that say the same thing; ids and stamps may differ. */
  predicate SameData(a: Domain, b: Domain) {
    a.owner == b.owner && a.name == b.name && a.address == b.address && a.note == b.note
  }

  predicate SameListing(first: seq<Domain>, second: seq<Domain>) {
    |first| == |second| && forall k :: 0 <= k < |first| ==> SameData(first[k], second[k])
  }

  /** A source holds at most one record for an owner. */
  predicate OneEach(domains: seq<Domain>, source: Source) {
    forall i, j :: 0 <= i < j < |domains| ==>
      domains[i].source == source && domains[j].source == source && domains[i].owner != "" ==>
        domains[i].owner != domains[j].owner
  }

  /** A candidate that would change nothing: it clashes, or its record already says it. */
  ghost predicate SettledIn(tx: Text, source: Source, domains: seq<Domain>, c: Domain) {
    c.owner == "" || Clashes(tx, domains, source, c.name)
    || exists d :: d in domains && d.source == source && d.owner == c.owner && Merged(d, c) == d
  }

  function FirstNamed(tx: Text, domains: seq<Domain>, name: string): (r: Option<nat>)
    ensures r.Some? ==> r.value < |domains| && Normalise(tx, domains[r.value].name) == Normalise(tx, name)
                        && forall j :: 0 <= j < r.value ==> Normalise(tx, domains[j].name) != Normalise(tx, name)
    ensures r.None? ==> forall d <- domains :: Normalise(tx, d.name) != Normalise(tx, name)
  {
    if domains == [] then None
    else if Normalise(tx, domains[0].name) == Normalise(tx, name) then Some(0)
    else
      match FirstNamed(tx, domains[1..], name)
      case Some(i) => Some(i + 1)
      case None => None
  }

  lemma {:induction false} ByNameIsFirst(tx: Text, domains: seq<Domain>, name: string)
    ensures var i := FirstNamed(tx, domains, name);
            ByName(tx, domains, name) == if i.Some? then Some(domains[i.value]) else None
  {
    if domains != [] && Normalise(tx, domains[0].name) != Normalise(tx, name) {
      ByNameIsFirst(tx, domains[1..], name);
      var i := FirstNamed(tx, domains[1..], name);
      assert i.Some? ==> domains[i.value + 1] == domains[1..][i.value];
    }
  }

  /** Everything one candidate can do to the list: nothing, append itself, or replace the old
      record `j` of its owner; and it does neither while its name clashes. */
  ghost predicate Effect(tx: Text, source: Source, initial: seq<Domain>, domains: seq<Domain>, c: Domain, now: string,
                         after: seq<Domain>, j: nat)
  {
    || after == domains
    || (after == domains + [c] && c.owner !in Mine(initial, source) && !Clashes(tx, domains, source, c.name))
    || (j < |initial| && |initial| <= |domains| && domains[j] == initial[j]
        && initial[j].source == source && initial[j].owner == c.owner
        && !Clashes(tx, domains, source, c.name)
        && after == domains[j := Merged(initial[j], c).(updatedAt := now)])
  }

  lemma ConsiderHasEffect(tx: Text, source: Source, initial: seq<Domain>, seen: seq<Domain>, domains: seq<Domain>,
                          result: ReconcileResult, c: Domain, now: string) returns (j: nat)
    requires Grown(source, initial, seen, domains) && FreshIds(initial, seen + [c])
    requires Consider(tx, source, Mine(initial, source), domains, result, c, now).Done?
    ensures Effect(tx, source, initial, domains, c, now,
                   Consider(tx, source, Mine(initial, source), domains, result, c, now).domains, j)
  {
    j := 0;
    var mine := Mine(initial, source);
    var after := Consider(tx, source, mine, domains, result, c, now).domains;
    if c.owner in mine && after != domains {
      j :| 0 <= j < |initial| && initial[j] == mine[c.owner];
      assert forall e <- seen :: e in seen + [c];
      IndexIsThePlace(source, initial, seen, domains, j);
    }
  }

  /** A name held first by another source is still held so after one more candidate. */
  lemma ClashPersists(tx: Text, source: Source, initial: seq<Domain>, domains: seq<Domain>,
                      c: Domain, now: string, after: seq<Domain>, j: nat, name: string)
    requires Effect(tx, source, initial, domains, c, now, after, j)
    requires Clashes(tx, domains, source, name)
    ensures Clashes(tx, after, source, name)
  {
    ByNameIsFirst(tx, domains, name);
    var i := FirstNamed(tx, domains, name).value;
    if after != domains {
      if Normalise(tx, c.name) == Normalise(tx, name) {
        SameNormSameClash(tx, domains, source, c.name, name);
      }
      assert after[i] == domains[i];
      FirstIs(tx, after, name, i);
    }
  }

  lemma {:induction false} SameNormSameClash(tx: Text, domains: seq<Domain>, source: Source, a: string, b: string)
    requires Normalise(tx, a) == Normalise(tx, b)
    ensures ByName(tx, domains, a) == ByName(tx, domains, b)
  {
    if domains != [] {
      SameNormSameClash(tx, domains[1..], source, a, b);
    }
  }

  lemma FirstIs(tx: Text, domains: seq<Domain>, name: string, i: nat)
    requires i < |domains| && Normalise(tx, domains[i].name) == Normalise(tx, name)
    requires forall j :: 0 <= j < i ==> Normalise(tx, domains[j].name) != Normalise(tx, name)
    ensures ByName(tx, domains, name) == Some(domains[i])
  {
    assert domains[i] in domains;
    ByNameIsFirst(tx, domains, name);
    var f := FirstNamed(tx, domains, name);
    assert f.Some? && f.value == i;
  }

  /** What a candidate settles stays settled while candidates of other owners go by. */
  lemma SettledPersists(tx: Text, source: Source, initial: seq<Domain>, seen: seq<Domain>, domains: seq<Domain>,
                        c: Domain, now: string, after: seq<Domain>, j: nat, e: Domain)
    requires Grown(source, initial, seen, domains) && Effect(tx, source, initial, domains, c, now, after, j)
    requires SettledIn(tx, source, domains, e) && e.owner != c.owner
    ensures SettledIn(tx, source, after, e)
  {
    if Clashes(tx, domains, source, e.name) {
      ClashPersists(tx, source, initial, domains, c, now, after, j, e.name);
    } else if e.owner != "" {
      var d :| d in domains && d.source == source && d.owner == e.owner && Merged(d, e) == d;
      var i :| 0 <= i < |domains| && domains[i] == d;
      if |after| == |domains| && after != domains {
        assert SameIdentity(initial[j], domains[j]) && j != i;
      }
      assert after[i] == d;
    }
  }

  lemma MergedTwice(d: Domain, c: Domain, now: string)
    ensures Merged(Merged(d, c).(updatedAt := now), c) == Merged(d, c).(updatedAt := now)
    ensures Merged(c, c) == c
  {
  }

  /** A candidate is settled the moment it has been considered. */
  lemma ConsideredIsSettled(tx: Text, source: Source, initial: seq<Domain>, seen: seq<Domain>, domains: seq<Domain>,
                            result: ReconcileResult, c: Domain, now: string)
    requires Grown(source, initial, seen, domains) && FreshIds(initial, seen + [c])
    requires c.owner !in Observed(seen) && c.source == source
    requires Consider(tx, source, Mine(initial, source), domains, result, c, now).Done?
    ensures SettledIn(tx, source, Consider(tx, source, Mine(initial, source), domains, result, c, now).domains, c)
  {
    var after := Consider(tx, source, Mine(initial, source), domains, result, c, now).domains;
    var mine := Mine(initial, source);
    if c.owner != "" && !Clashes(tx, domains, source, c.name) {
      if c.owner !in mine {
        MergedTwice(c, c, now);
        assert after[|domains|] == c;
      } else {
        var j :| 0 <= j < |initial| && initial[j] == mine[c.owner];
        assert domains[j] == initial[j];
        if Merged(initial[j], c) != initial[j] {
          assert forall x <- seen :: x in seen + [c];
          IndexIsThePlace(source, initial, seen, domains, j);
          MergedTwice(initial[j], c, now);
          assert after[j] == Merged(initial[j], c).(updatedAt := now);
        } else {
          assert after[j] == initial[j];
        }
      }
    }
  }

  lemma SettledStep(tx: Text, source: Source, initial: seq<Domain>, seen: seq<Domain>, domains: seq<Domain>,
                    result: ReconcileResult, c: Domain, now: string)
    requires Grown(source, initial, seen, domains) && FreshIds(initial, seen + [c])
    requires c.source == source && forall e <- seen :: e.owner != c.owner
    requires forall e <- seen :: SettledIn(tx, source, domains, e)
    requires Consider(tx, source, Mine(initial, source), domains, result, c, now).Done?
    ensures var after := Consider(tx, source, Mine(initial, source), domains, result, c, now).domains;
            SettledIn(tx, source, after, c) && forall e <- seen :: SettledIn(tx, source, after, e)
  {
    var after := Consider(tx, source, Mine(initial, source), domains, result, c, now).domains;
    var j := ConsiderHasEffect(tx, source, initial, seen, domains, result, c, now);
    assert c.owner !in Observed(seen);
    ConsideredIsSettled(tx, source, initial, seen, domains, result, c, now);
    forall e | e in seen ensures SettledIn(tx, source, after, e) {
      SettledPersists(tx, source, initial, seen, domains, c, now, after, j, e);
    }
  }

  lemma {:induction false} AllSettled(tx: Text, source: Source, initial: seq<Domain>, wanted: seq<Domain>,
                                      clock: nat -> string)
    requires DistinctIds(initial) && FreshIds(initial, wanted) && DistinctOwners(wanted) && AllFrom(source, wanted)
    ensures var after := ConsiderAll(tx, source, initial, wanted, clock);
            after.Done? && forall c <- wanted :: SettledIn(tx, source, after.domains, c)
  {
    DistinctOwnersNeverRaise(tx, source, initial, wanted, clock);
    if wanted != [] {
      var n := |wanted| - 1;
      var seen, c := wanted[..n], wanted[n];
      AllSettled(tx, source, initial, seen, clock);
      ConsiderAllGrows(tx, source, initial, seen, clock);
      var before := ConsiderAll(tx, source, initial, seen, clock);
      SplitLast(wanted);
      forall e | e in seen ensures e.owner != c.owner {
        var k :| 0 <= k < |seen| && seen[k] == e;
        assert wanted[k].owner != wanted[n].owner;
      }
      SettledStep(tx, source, initial, seen, before.domains, before.result, c, clock(n));
    }
  }

  // ---- through the sweep ----

  lemma {:induction false} ClashSurvivesSweep(tx: Text, source: Source, domains: seq<Domain>, observed: set<string>, name: string)
    requires Clashes(tx, domains, source, name)
    ensures Clashes(tx, Remaining(domains, source, observed), source, name)
  {
    if Normalise(tx, domains[0].name) == Normalise(tx, name) {
      assert Remaining(domains, source, observed)[0] == domains[0];
    } else {
      ClashSurvivesSweep(tx, source, domains[1..], observed, name);
      var rest := Remaining(domains[1..], source, observed);
      if !Stale(domains[0], source, observed) {
        assert Remaining(domains, source, observed) == [domains[0]] + rest;
        assert ([domains[0]] + rest)[1..] == rest;
      } else {
        assert Remaining(domains, source, observed) == rest;
      }
    }
  }

  lemma SettledSurvivesSweep(tx: Text, source: Source, domains: seq<Domain>, wanted: seq<Domain>, c: Domain)
    requires SettledIn(tx, source, domains, c) && c in wanted
    ensures SettledIn(tx, source, Remaining(domains, source, Observed(wanted)), c)
  {
    if c.owner != "" {
      assert c.owner in Observed(wanted);
      if Clashes(tx, domains, source, c.name) {
        ClashSurvivesSweep(tx, source, domains, Observed(wanted), c.name);
      } else {
        var d :| d in domains && d.source == source && d.owner == c.owner && Merged(d, c) == d;
        assert d in Remaining(domains, source, Observed(wanted));
      }
    }
  }

  // ---- the second pass ----

  lemma SettledIsIdle(tx: Text, source: Source, domains: seq<Domain>, result: ReconcileResult, c: Domain, c': Domain, now: string)
    requires OneEach(domains, source) && SettledIn(tx, source, domains, c) && SameData(c, c')
    requires result.added == [] && result.updated == []
    ensures var after := Consider(tx, source, Mine(domains, source), domains, result, c', now);
            after.Done? && after.domains == domains && after.result.added == [] && after.result.updated == []
            && after.result.removed == result.removed
  {
    if c.owner != "" && !Clashes(tx, domains, source, c.name) {
      var d :| d in domains && d.source == source && d.owner == c.owner && Merged(d, c) == d;
      var mine := Mine(domains, source);
      var i :| 0 <= i < |domains| && domains[i] == d;
      var j :| 0 <= j < |domains| && domains[j] == mine[c.owner];
      assert i == j;
      assert Merged(d, c') == d;
    }
  }

  lemma {:induction false} SecondConsiderIsIdle(tx: Text, source: Source, domains: seq<Domain>, wanted: seq<Domain>,
                                                again: seq<Domain>, clock: nat -> string)
    requires OneEach(domains, source) && SameListing(wanted, again)
    requires forall c <- wanted :: SettledIn(tx, source, domains, c)
    ensures var after := ConsiderAll(tx, source, domains, again, clock);
            after.Done? && after.domains == domains && after.result.added == [] && after.result.updated == []
            && after.result.removed == []
  {
    if again != [] {
      var n := |again| - 1;
      SecondConsiderIsIdle(tx, source, domains, wanted[..n], again[..n], clock);
      var before := ConsiderAll(tx, source, domains, again[..n], clock);
      SettledIsIdle(tx, source, domains, before.result, wanted[n], again[n], clock(n));
    }
  }

  lemma {:induction false} NothingStale(domains: seq<Domain>, source: Source, observed: set<string>)
    requires forall d <- domains :: !Stale(d, source, observed)
    ensures StaleOnes(domains, source, observed) == []
  {
    if domains != [] {
      NothingStale(domains[1..], source, observed);
    }
  }

  lemma SameObserved(wanted: seq<Domain>, again: seq<Domain>)
    requires SameListing(wanted, again)
    ensures Observed(wanted) == Observed(again)
  {
    forall o ensures o in Observed(wanted) <==> o in Observed(again) {
      if o in Observed(wanted) {
        var k :| 0 <= k < |wanted| && wanted[k].owner == o;
        assert again[k] in again;
      }
      if o in Observed(again) {
        var k :| 0 <= k < |again| && again[k].owner == o;
        assert wanted[k] in wanted;
      }
    }
  }

  lemma OneEachEffect(tx: Text, source: Source, initial: seq<Domain>, seen: seq<Domain>, domains: seq<Domain>,
                      c: Domain, now: string, after: seq<Domain>, j: nat)
    requires Effect(tx, source, initial, domains, c, now, after, j)
    requires |initial| <= |domains| && forall i :: 0 <= i < |initial| ==> SameIdentity(initial[i], domains[i])
    requires forall i :: |initial| <= i < |domains| ==> domains[i] in seen
    requires OneEach(domains, source) && forall e <- seen :: e.owner != c.owner
    ensures OneEach(after, source)
  {
    if after == domains + [c] {
      forall i | 0 <= i < |domains| && domains[i].source == source && domains[i].owner != ""
        ensures domains[i].owner != c.owner
      {
        if i < |initial| {
          assert initial[i] in initial && SameIdentity(initial[i], domains[i]);
        }
      }
    } else if after != domains {
      assert SameIdentity(domains[j], after[j]);
    }
  }

  lemma OneEachStep(tx: Text, source: Source, initial: seq<Domain>, seen: seq<Domain>, domains: seq<Domain>,
                    result: ReconcileResult, c: Domain, now: string)
    requires Grown(source, initial, seen, domains) && FreshIds(initial, seen + [c])
    requires OneEach(domains, source) && forall e <- seen :: e.owner != c.owner
    requires Consider(tx, source, Mine(initial, source), domains, result, c, now).Done?
    ensures OneEach(Consider(tx, source, Mine(initial, source), domains, result, c, now).domains, source)
  {
    var after := Consider(tx, source, Mine(initial, source), domains, result, c, now).domains;
    var j := ConsiderHasEffect(tx, source, initial, seen, domains, result, c, now);
    OneEachEffect(tx, source, initial, seen, domains, c, now, after, j);
  }

  /** A pass keeps at most one record of the source for an owner. */
  lemma {:induction false} OneEachKept(tx: Text, source: Source, initial: seq<Domain>, wanted: seq<Domain>,
                                       clock: nat -> string)
    requires DistinctIds(initial) && FreshIds(initial, wanted) && DistinctOwners(wanted) && OneEach(initial, source)
    ensures var after := ConsiderAll(tx, source, initial, wanted, clock);
            after.Done? && OneEach(after.domains, source)
  {
    DistinctOwnersNeverRaise(tx, source, initial, wanted, clock);
    if wanted != [] {
      var n := |wanted| - 1;
      var seen, c := wanted[..n], wanted[n];
      OneEachKept(tx, source, initial, seen, clock);
      ConsiderAllGrows(tx, source, initial, seen, clock);
      var before := ConsiderAll(tx, source, initial, seen, clock);
      SplitLast(wanted);
      forall e | e in seen ensures e.owner != c.owner {
        var k :| 0 <= k < |seen| && seen[k] == e;
        assert wanted[k].owner != wanted[n].owner;
      }
      OneEachStep(tx, source, initial, seen, before.domains, before.result, c, clock(n));
    }
  }

  lemma OneEachRemains(domains: seq<Domain>, source: Source, observed: set<string>)
    requires OneEach(domains, source)
    ensures OneEach(Remaining(domains, source, observed), source)
  {
    var r := Remaining(domains, source, observed);
    forall p, q | 0 <= p < q < |r|
      ensures r[p].source == source && r[q].source == source && r[p].owner != "" ==> r[p].owner != r[q].owner
    {
      var i, j := RemainingPicks(domains, source, observed, p, q);
    }
  }

  /** A list that a listing has nothing to say to. */
  ghost predicate Settled(tx: Text, source: Source, domains: seq<Domain>, wanted: seq<Domain>) {
    && OneEach(domains, source)
    && (forall c <- wanted :: SettledIn(tx, source, domains, c))
    && (forall d <- domains :: !Stale(d, source, Observed(wanted)))
  }

  /** One pass settles the list. */
  lemma PassSettles(tx: Text, source: Source, initial: seq<Domain>, wanted: seq<Domain>, clock: nat -> string)
    requires DistinctIds(initial) && FreshIds(initial, wanted) && OneEach(initial, source)
    requires AllFrom(source, wanted) && DistinctOwners(wanted)
    ensures var once := ReconcileChange(tx, initial, source, wanted, clock);
            once.Done? && Settled(tx, source, once.domains, wanted)
  {
    AllSettled(tx, source, initial, wanted, clock);
    OneEachKept(tx, source, initial, wanted, clock);
    ConsiderAllGrows(tx, source, initial, wanted, clock);
    var considered := ConsiderAll(tx, source, initial, wanted, clock).domains;
    var observed := Observed(wanted);
    SweepDropsTheStale(considered, source, observed);
    OneEachRemains(considered, source, observed);
    var once := Remaining(considered, source, observed);
    forall c | c in wanted ensures SettledIn(tx, source, once, c) {
      SettledSurvivesSweep(tx, source, considered, wanted, c);
    }
  }

  /** And a settled list is left as it is. */
  lemma SettledPassIsIdle(tx: Text, source: Source, domains: seq<Domain>, wanted: seq<Domain>, again: seq<Domain>,
                          clock: nat -> string)
    requires Settled(tx, source, domains, wanted) && SameListing(wanted, again)
    ensures var after := ReconcileChange(tx, domains, source, again, clock);
            after.Done? && after.domains == domains && !after.result.Changed()
  {
    SecondConsiderIsIdle(tx, source, domains, wanted, again, clock);
    SameObserved(wanted, again);
    NothingStale(domains, source, Observed(wanted));
    WithoutNothing(domains);
  }

  /** Importing is a fixpoint: after a pass, a second one over the same listing adds, updates
      and removes nothing, so the list stays as it is. */
  lemma SecondPassChangesNothing(tx: Text, source: Source, initial: seq<Domain>, wanted: seq<Domain>, again: seq<Domain>,
                                 clock: nat -> string, clock': nat -> string)
    requires DistinctIds(initial) && FreshIds(initial, wanted) && OneEach(initial, source)
    requires AllFrom(source, wanted) && DistinctOwners(wanted) && SameListing(wanted, again)
    ensures var once := ReconcileChange(tx, initial, source, wanted, clock);
            once.Done? &&
            var twice := ReconcileChange(tx, once.domains, source, again, clock');
            twice.Done? && twice.domains == once.domains && !twice.result.Changed()
  {
    PassSettles(tx, source, initial, wanted, clock);
    SettledPassIsIdle(tx, source, ReconcileChange(tx, initial, source, wanted, clock).domains, wanted, again, clock');
  }

  // ---- the same records under other ids and stamps ----

  predicate AlikeRecords(a: Domain, b: Domain) {
    b == a.(id := b.id, createdAt := b.createdAt, updatedAt := b.updatedAt)
  }

  predicate Alike(a: seq<Domain>, b: seq<Domain>) {
    |a| == |b| && forall i :: 0 <= i < |a| ==> AlikeRecords(a[i], b[i])
  }

  lemma {:induction false} AlikeByName(tx: Text, a: seq<Domain>, b: seq<Domain>, name: string)
    requires Alike(a, b)
    ensures var x, y := ByName(tx, a, name), ByName(tx, b, name);
            (x.Some? <==> y.Some?) && (x.Some? ==> AlikeRecords(x.value, y.value))
  {
    if a != [] {
      AlikeByName(tx, a[1..], b[1..], name);
    }
  }

  lemma SettledAlike(tx: Text, source: Source, a: seq<Domain>, b: seq<Domain>, wanted: seq<Domain>)
    requires Alike(a, b) && Settled(tx, source, a, wanted)
    ensures Settled(tx, source, b, wanted)
  {
    forall c | c in wanted ensures SettledIn(tx, source, b, c) {
      AlikeByName(tx, a, b, c.name);
      if c.owner != "" && !Clashes(tx, a, source, c.name) {
        var d :| d in a && d.source == source && d.owner == c.owner && Merged(d, c) == d;
        var i := PlaceOf(a, d);
        assert AlikeRecords(a[i], b[i]) && b[i] in b && Merged(b[i], c) == b[i];
      }
    }
    forall d | d in b ensures !Stale(d, source, Observed(wanted)) {
      var i := PlaceOf(b, d);
      assert AlikeRecords(a[i], b[i]) && a[i] in a;
    }
    assert OneEach(b, source) by {
      assert forall i :: 0 <= i < |a| ==> AlikeRecords(a[i], b[i]);
    }
  }
}
