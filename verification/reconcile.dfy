/** What one reconciliation pass does to a list of records. */
module Reconciliation {
  import opened Prelude
  import opened Texts
  import opened Names
  import opened Model
  import opened Store

  predicate DistinctIds(domains: seq<Domain>) {
    forall i, j :: 0 <= i < j < |domains| ==> domains[i].id != domains[j].id
  }

  /** New records come with ids of their own. */
  predicate FreshIds(domains: seq<Domain>, incoming: seq<Domain>) {
    DistinctIds(incoming) && forall d <- domains, c <- incoming :: d.id != c.id
  }

  predicate DistinctOwners(wanted: seq<Domain>) {
    forall i, j :: 0 <= i < j < |wanted| ==> wanted[i].owner != wanted[j].owner
  }

  predicate AllFrom(source: Source, wanted: seq<Domain>) {
    forall c <- wanted :: c.source == source
  }

  /** Everything about a record that a pass may never touch. */
  predicate SameIdentity(a: Domain, b: Domain) {
    a.id == b.id && a.source == b.source && a.owner == b.owner && a.enabled == b.enabled
    && a.pinnedFields == b.pinnedFields && a.createdAt == b.createdAt
  }

  /** How the list looks after the candidates `seen`: the old records in their places, and
      then some of the candidates. */
  ghost predicate Grown(source: Source, initial: seq<Domain>, seen: seq<Domain>, domains: seq<Domain>) {
    && |initial| <= |domains|
    && (forall i :: 0 <= i < |initial| ==> SameIdentity(initial[i], domains[i]))
    && (forall i :: 0 <= i < |initial| ==>
          domains[i] == initial[i] || (initial[i].source == source && initial[i].owner in Observed(seen)))
    && (forall i :: |initial| <= i < |domains| ==> domains[i] in seen && domains[i].owner != "")
    && DistinctIds(domains)
  }

  /** The record a replacement finds is the very one the dictionary was made from. */
  lemma IndexIsThePlace(source: Source, initial: seq<Domain>, seen: seq<Domain>, domains: seq<Domain>, j: nat)
    requires Grown(source, initial, seen, domains) && j < |initial|
    requires forall d <- initial, c <- seen :: d.id != c.id
    requires IndexOf(domains, initial[j]).Some?
    ensures IndexOf(domains, initial[j]).value == j
  {
  }

  lemma ObservedGrows(seen: seq<Domain>, c: Domain)
    ensures Observed(seen + [c]) == Observed(seen) + if c.owner != "" then {c.owner} else {}
  {
  }

  lemma AppendGrows(source: Source, initial: seq<Domain>, seen: seq<Domain>, domains: seq<Domain>, c: Domain)
    requires Grown(source, initial, seen, domains)
    requires c.owner != "" && forall d <- initial + seen :: d.id != c.id
    ensures Grown(source, initial, seen + [c], domains + [c])
  {
    ObservedGrows(seen, c);
    forall i | 0 <= i < |domains| ensures domains[i].id != c.id {
      if i < |initial| {
        assert initial[i] in initial + seen;
      } else {
        assert domains[i] in initial + seen;
      }
    }
  }

  lemma ReplaceGrows(source: Source, initial: seq<Domain>, seen: seq<Domain>, domains: seq<Domain>, c: Domain,
                     j: nat, d: Domain)
    requires Grown(source, initial, seen, domains) && j < |initial|
    requires c.owner != "" && initial[j].source == source && initial[j].owner == c.owner
    requires SameIdentity(initial[j], d)
    ensures Grown(source, initial, seen + [c], domains[j := d])
  {
    ObservedGrows(seen, c);
  }

  /** A candidate that changes nothing. */
  lemma SeenGrows(source: Source, initial: seq<Domain>, seen: seq<Domain>, domains: seq<Domain>, c: Domain)
    requires Grown(source, initial, seen, domains)
    ensures Grown(source, initial, seen + [c], domains)
  {
    ObservedGrows(seen, c);
    assert forall e <- seen :: e in seen + [c];
  }

  /** A candidate merged into the record of its owner, which is still where it was. */
  lemma MergeGrows(source: Source, initial: seq<Domain>, seen: seq<Domain>, domains: seq<Domain>, c: Domain, now: string)
    requires Grown(source, initial, seen, domains) && c.owner != "" && c.owner in Mine(initial, source)
    requires forall d <- initial, e <- seen :: d.id != e.id
    ensures var current := Mine(initial, source)[c.owner];
            var i := IndexOf(domains, current);
            i.Some? ==> Grown(source, initial, seen + [c], domains[i.value := Merged(current, c).(updatedAt := now)])
  {
    var current := Mine(initial, source)[c.owner];
    if IndexOf(domains, current).Some? {
      var j :| 0 <= j < |initial| && initial[j] == current;
      IndexIsThePlace(source, initial, seen, domains, j);
      ReplaceGrows(source, initial, seen, domains, c, j, Merged(initial[j], c).(updatedAt := now));
    }
  }

  lemma NewIdIsNew(initial: seq<Domain>, seen: seq<Domain>, c: Domain)
    requires FreshIds(initial, seen + [c])
    ensures forall d <- initial + seen :: d.id != c.id
  {
    assert (seen + [c])[|seen|] == c;
    forall d | d in initial + seen ensures d.id != c.id {
      if d in seen {
        var i := PlaceOf(seen, d);
        assert (seen + [c])[i] == d;
      }
    }
  }

  lemma ConsiderGrows(tx: Text, source: Source, initial: seq<Domain>, seen: seq<Domain>, domains: seq<Domain>,
                      result: ReconcileResult, c: Domain, now: string)
    requires Grown(source, initial, seen, domains)
    requires FreshIds(initial, seen + [c])
    ensures var after := Consider(tx, source, Mine(initial, source), domains, result, c, now);
            after.Done? ==> Grown(source, initial, seen + [c], after.domains)
  {
    var mine := Mine(initial, source);
    if c.owner == "" || Clashes(tx, domains, source, c.name) {
      SeenGrows(source, initial, seen, domains, c);
    } else if c.owner !in mine {
      NewIdIsNew(initial, seen, c);
      AppendGrows(source, initial, seen, domains, c);
    } else if Merged(mine[c.owner], c) == mine[c.owner] {
      SeenGrows(source, initial, seen, domains, c);
    } else {
      assert forall e <- seen :: e in seen + [c];
      MergeGrows(source, initial, seen, domains, c, now);
    }
  }

  lemma {:induction false} ConsiderAllGrows(tx: Text, source: Source, initial: seq<Domain>, wanted: seq<Domain>,
                                            clock: nat -> string)
    requires DistinctIds(initial) && FreshIds(initial, wanted)
    ensures var after := ConsiderAll(tx, source, initial, wanted, clock);
            after.Done? ==> Grown(source, initial, wanted, after.domains)
  {
    if wanted != [] {
      var n := |wanted| - 1;
      ConsiderAllGrows(tx, source, initial, wanted[..n], clock);
      var before := ConsiderAll(tx, source, initial, wanted[..n], clock);
      SplitLast(wanted);
      if before.Done? {
        ConsiderGrows(tx, source, initial, wanted[..n], before.domains, before.result, wanted[n], clock(n));
      }
    }
  }

  lemma UnseenOwnerIsUntouched(source: Source, initial: seq<Domain>, seen: seq<Domain>, domains: seq<Domain>, owner: string)
    requires Grown(source, initial, seen, domains) && owner !in Observed(seen)
    ensures owner in Mine(initial, source) ==> Mine(initial, source)[owner] in domains
  {
    var mine := Mine(initial, source);
    if owner in mine {
      var j :| 0 <= j < |initial| && initial[j] == mine[owner];
      assert domains[j] == initial[j];
    }
  }

  /** Distinct owners rule the stale-dictionary exception out. */
  lemma {:induction false} DistinctOwnersNeverRaise(tx: Text, source: Source, initial: seq<Domain>, wanted: seq<Domain>,
                                                    clock: nat -> string)
    requires DistinctIds(initial) && FreshIds(initial, wanted) && DistinctOwners(wanted)
    ensures ConsiderAll(tx, source, initial, wanted, clock).Done?
  {
    if wanted != [] {
      var n := |wanted| - 1;
      var seen := wanted[..n];
      DistinctOwnersNeverRaise(tx, source, initial, seen, clock);
      ConsiderAllGrows(tx, source, initial, seen, clock);
      var before := ConsiderAll(tx, source, initial, seen, clock);
      assert wanted[n].owner !in Observed(seen);
      NewOwnerNeverRaises(tx, source, initial, seen, before.domains, before.result, wanted[n], clock(n));
    }
  }

  lemma NewOwnerNeverRaises(tx: Text, source: Source, initial: seq<Domain>, seen: seq<Domain>, domains: seq<Domain>,
                            result: ReconcileResult, c: Domain, now: string)
    requires Grown(source, initial, seen, domains) && c.owner !in Observed(seen)
    ensures Consider(tx, source, Mine(initial, source), domains, result, c, now).Done?
  {
    UnseenOwnerIsUntouched(source, initial, seen, domains, c.owner);
  }

  // ---- the sweep ----

  function Remaining(domains: seq<Domain>, source: Source, observed: set<string>): (r: seq<Domain>)
    ensures forall d :: d in r <==> d in domains && !Stale(d, source, observed)
  {
    if domains == [] then []
    else if Stale(domains[0], source, observed) then Remaining(domains[1..], source, observed)
    else [domains[0]] + Remaining(domains[1..], source, observed)
  }

  lemma {:induction false} GoneAreStale(domains: seq<Domain>, source: Source, observed: set<string>, gone: set<string>)
    requires forall d <- domains :: d.id in gone <==> Stale(d, source, observed)
    ensures WithoutIds(domains, gone) == Remaining(domains, source, observed)
  {
    if domains != [] {
      assert domains[0] in domains;
      GoneAreStale(domains[1..], source, observed, gone);
    }
  }

  /** With distinct ids, sweeping by id drops the stale records and no other. */
  lemma SweepDropsTheStale(domains: seq<Domain>, source: Source, observed: set<string>)
    requires DistinctIds(domains)
    ensures WithoutIds(domains, IdsOf(StaleOnes(domains, source, observed))) == Remaining(domains, source, observed)
  {
    var gone := IdsOf(StaleOnes(domains, source, observed));
    forall d | d in domains ensures d.id in gone <==> Stale(d, source, observed) {
      if d.id in gone {
        var e :| e in StaleOnes(domains, source, observed) && e.id == d.id;
        var i :| 0 <= i < |domains| && domains[i] == d;
        var j :| 0 <= j < |domains| && domains[j] == e;
        assert i == j;
      }
    }
    GoneAreStale(domains, source, observed, gone);
  }

  // ---- records of other sources ----

  function Others(domains: seq<Domain>, source: Source): (r: seq<Domain>)
    ensures forall d :: d in r <==> d in domains && d.source != source
  {
    if domains == [] then []
    else (if domains[0].source != source then [domains[0]] else []) + Others(domains[1..], source)
  }

  lemma {:induction false} OthersOfRemaining(domains: seq<Domain>, source: Source, observed: set<string>)
    ensures Others(Remaining(domains, source, observed), source) == Others(domains, source)
  {
    if domains != [] {
      OthersOfRemaining(domains[1..], source, observed);
      var rest := Remaining(domains[1..], source, observed);
      if !Stale(domains[0], source, observed) {
        assert Remaining(domains, source, observed) == [domains[0]] + rest;
        assert ([domains[0]] + rest)[1..] == rest;
      } else {
        assert Remaining(domains, source, observed) == rest;
      }
    }
  }

  lemma {:induction false} OthersInPlace(initial: seq<Domain>, domains: seq<Domain>, source: Source)
    requires |initial| <= |domains|
    requires forall i :: 0 <= i < |initial| ==>
               initial[i].source == domains[i].source && (initial[i].source != source ==> domains[i] == initial[i])
    requires forall i :: |initial| <= i < |domains| ==> domains[i].source == source
    ensures Others(domains, source) == Others(initial, source)
    decreases |domains|
  {
    if domains != [] {
      OthersInPlace(if initial == [] then [] else initial[1..], domains[1..], source);
    }
  }

  /** A pass leaves the records of every other source as they were, in the same order. */
  lemma OthersUntouched(tx: Text, source: Source, initial: seq<Domain>, wanted: seq<Domain>, clock: nat -> string)
    requires DistinctIds(initial) && FreshIds(initial, wanted) && AllFrom(source, wanted)
    requires ReconcileChange(tx, initial, source, wanted, clock).Done?
    ensures Others(ReconcileChange(tx, initial, source, wanted, clock).domains, source) == Others(initial, source)
  {
    ConsiderAllGrows(tx, source, initial, wanted, clock);
    var considered := ConsiderAll(tx, source, initial, wanted, clock).domains;
    OthersInPlace(initial, considered, source);
    SweepDropsTheStale(considered, source, Observed(wanted));
    OthersOfRemaining(considered, source, Observed(wanted));
  }

  /** Who is in the list after a pass: a record stays, with its identity and its enabled flag,
      unless its own source no longer observes it; and whoever is new was a candidate. */
  lemma WhoRemains(tx: Text, source: Source, initial: seq<Domain>, wanted: seq<Domain>, clock: nat -> string, d: Domain)
    requires DistinctIds(initial) && FreshIds(initial, wanted)
    requires ReconcileChange(tx, initial, source, wanted, clock).Done?
    ensures var after := ReconcileChange(tx, initial, source, wanted, clock).domains;
            && DistinctIds(after)
            && (d in initial ==>
                  ((exists e :: e in after && SameIdentity(d, e)) <==> !Stale(d, source, Observed(wanted))))
            && (d in initial && d.source != source ==> d in after)
            && (d in after ==> (exists e :: e in initial && SameIdentity(e, d)) || d in wanted)
  {
    ConsiderAllGrows(tx, source, initial, wanted, clock);
    var considered := ConsiderAll(tx, source, initial, wanted, clock).domains;
    var observed := Observed(wanted);
    SweepDropsTheStale(considered, source, observed);
    RemainingKeepsIds(considered, source, observed);
    if d in initial {
      OldRemains(source, initial, wanted, considered, d);
    }
    if d in Remaining(considered, source, observed) {
      NewIsWanted(source, initial, wanted, considered, d);
    }
  }

  lemma OldRemains(source: Source, initial: seq<Domain>, wanted: seq<Domain>, considered: seq<Domain>, d: Domain)
    requires Grown(source, initial, wanted, considered) && d in initial
    ensures var after := Remaining(considered, source, Observed(wanted));
            ((exists e :: e in after && SameIdentity(d, e)) <==> !Stale(d, source, Observed(wanted)))
            && (d.source != source ==> d in after)
  {
    var i := PlaceOf(initial, d);
    var after := Remaining(considered, source, Observed(wanted));
    if !Stale(d, source, Observed(wanted)) {
      assert considered[i] in after;
    }
    if e :| e in after && SameIdentity(d, e) {
      assert Stale(e, source, Observed(wanted)) == Stale(d, source, Observed(wanted));
    }
  }

  lemma NewIsWanted(source: Source, initial: seq<Domain>, wanted: seq<Domain>, considered: seq<Domain>, d: Domain)
    requires Grown(source, initial, wanted, considered) && d in considered
    ensures (exists e :: e in initial && SameIdentity(e, d)) || d in wanted
  {
    var i := PlaceOf(considered, d);
    if i < |initial| {
      assert initial[i] in initial && SameIdentity(initial[i], d);
    }
  }

  /** A sweep keeps the order: two survivors come from two places, one before the other. */
  lemma {:induction false} RemainingPicks(domains: seq<Domain>, source: Source, observed: set<string>, p: nat, q: nat)
    returns (i: nat, j: nat)
    requires p < q < |Remaining(domains, source, observed)|
    ensures i < j < |domains|
    ensures domains[i] == Remaining(domains, source, observed)[p] && domains[j] == Remaining(domains, source, observed)[q]
  {
    var r, rest := Remaining(domains, source, observed), Remaining(domains[1..], source, observed);
    if Stale(domains[0], source, observed) {
      assert r == rest;
      i, j := RemainingPicks(domains[1..], source, observed, p, q);
      i, j := i + 1, j + 1;
    } else {
      assert r == [domains[0]] + rest;
      if p > 0 {
        i, j := RemainingPicks(domains[1..], source, observed, p - 1, q - 1);
        i, j := i + 1, j + 1;
      } else {
        i := 0;
        j := PlaceOf(domains[1..], rest[q - 1]);
        j := j + 1;
      }
    }
  }

  lemma RemainingKeepsIds(domains: seq<Domain>, source: Source, observed: set<string>)
    requires DistinctIds(domains)
    ensures DistinctIds(Remaining(domains, source, observed))
  {
    var r := Remaining(domains, source, observed);
    forall p, q | 0 <= p < q < |r| ensures r[p].id != r[q].id {
      var i, j := RemainingPicks(domains, source, observed, p, q);
    }
  }
}
