/** The Windows name-resolution policy table and the plans that change it. */
module Nrpt {
  import opened Prelude

  type Namespace = string

  /** One rule of the table; `marked` says that its comment is our marker. */
  datatype Rule = Rule(marked: bool, namespace: Namespace, servers: seq<string>)

  /** The three shapes of PowerShell statement a plan is made of, by their effect. */
  datatype Statement =
    | RemoveOurs(namespace: Namespace)
    | RemoveAllOurs
    | AddOurs(namespace: Namespace, servers: seq<string>)

  datatype Plan = Plan(add: seq<Namespace>, remove: seq<Namespace>, script: seq<Statement>) {
    predicate Empty() { add == [] && remove == [] }
  }

  /** The elements of `xs` that are not in `ys`, in order. */
  function Minus(xs: seq<Namespace>, ys: seq<Namespace>): (r: seq<Namespace>)
    ensures forall x <- r :: x in xs && x !in ys
    ensures forall x <- xs :: x !in ys ==> x in r
  {
    if xs == [] then []
    else (if xs[0] in ys then [] else [xs[0]]) + Minus(xs[1..], ys)
  }

  lemma {:induction false} MinusOfCovered(xs: seq<Namespace>, ys: seq<Namespace>)
    requires forall x <- xs :: x in ys
    ensures Minus(xs, ys) == []
  {
    if xs != [] {
      MinusOfCovered(xs[1..], ys);
    }
  }

  function Removals(names: seq<Namespace>): (r: seq<Statement>)
    ensures |r| == |names| && forall i :: 0 <= i < |names| ==> r[i] == RemoveOurs(names[i])
  {
    seq(|names|, i requires 0 <= i < |names| => RemoveOurs(names[i]))
  }

  function Additions(names: seq<Namespace>, servers: seq<string>): (r: seq<Statement>)
    ensures |r| == |names| && forall i :: 0 <= i < |names| ==> r[i] == AddOurs(names[i], servers)
  {
    seq(|names|, i requires 0 <= i < |names| => AddOurs(names[i], servers))
  }

  /** Removals come first in the script. */
  function PlanApply(namespaces: seq<Namespace>, servers: seq<string>, present: seq<Namespace>): Plan {
    var desired, existing := Dedup(namespaces), Dedup(present);
    var toAdd, toRemove := Minus(desired, existing), Minus(existing, desired);
    Plan(toAdd, toRemove, Removals(toRemove) + Additions(toAdd, servers))
  }

  function PlanRemove(namespaces: seq<Namespace>): Plan {
    var targets := Dedup(namespaces);
    Plan([], targets, Removals(targets))
  }

  function PlanRemoveAll(): Plan { Plan([], ["*"], [RemoveAllOurs]) }

  // ---- the effect of a plan on the table ----

  type Table = seq<Rule>

  function WithoutOurs(table: Table, namespace: Namespace): Table {
    if table == [] then []
    else (if table[0].marked && table[0].namespace == namespace then [] else [table[0]])
         + WithoutOurs(table[1..], namespace)
  }

  /** The rules of everyone else. */
  function Foreign(table: Table): Table {
    if table == [] then []
    else (if table[0].marked then [] else [table[0]]) + Foreign(table[1..])
  }

  function Exec(table: Table, statement: Statement): Table {
    match statement
    case RemoveOurs(namespace) => WithoutOurs(table, namespace)
    case RemoveAllOurs => Foreign(table)
    case AddOurs(namespace, servers) => table + [Rule(true, namespace, servers)]
  }

  function ExecAll(table: Table, script: seq<Statement>): Table
    decreases |script|
  {
    if script == [] then table else ExecAll(Exec(table, script[0]), script[1..])
  }

  /** The namespaces that carry our marker. */
  function Ours(table: Table): set<Namespace> {
    set r | r in table && r.marked :: r.namespace
  }

  function AsSet(names: seq<Namespace>): set<Namespace> { set n | n in names }

  lemma OursOfCons(r: Rule, table: Table)
    ensures Ours([r] + table) == (if r.marked then {r.namespace} else {}) + Ours(table)
  {
    assert forall x :: x in [r] + table <==> x == r || x in table;
  }

  lemma OursOfSnoc(table: Table, r: Rule)
    ensures Ours(table + [r]) == Ours(table) + if r.marked then {r.namespace} else {}
  {
    assert forall x :: x in table + [r] <==> x == r || x in table;
  }

  lemma ConsTable(table: Table)
    requires table != []
    ensures table == [table[0]] + table[1..]
  {
  }

  lemma {:induction false} ForeignKept(table: Table, namespace: Namespace)
    ensures Foreign(WithoutOurs(table, namespace)) == Foreign(table)
    ensures Ours(WithoutOurs(table, namespace)) == Ours(table) - {namespace}
  {
    if table != [] {
      ForeignKept(table[1..], namespace);
      ConsTable(table);
      OursOfCons(table[0], table[1..]);
      var rest := WithoutOurs(table[1..], namespace);
      if !(table[0].marked && table[0].namespace == namespace) {
        assert ([table[0]] + rest)[1..] == rest;
        OursOfCons(table[0], rest);
      } else {
        assert WithoutOurs(table, namespace) == rest;
      }
    }
  }

  lemma {:induction false} ForeignHasNone(table: Table)
    ensures Foreign(Foreign(table)) == Foreign(table) && Ours(Foreign(table)) == {}
  {
    if table != [] {
      ForeignHasNone(table[1..]);
      var rest := Foreign(table[1..]);
      if !table[0].marked {
        assert ([table[0]] + rest)[1..] == rest;
        OursOfCons(table[0], rest);
      } else {
        assert Foreign(table) == rest;
      }
    }
  }

  lemma {:induction false} ForeignOfSnoc(table: Table, r: Rule)
    requires r.marked
    ensures Foreign(table + [r]) == Foreign(table)
  {
    if table != [] {
      ForeignOfSnoc(table[1..], r);
      assert (table + [r])[1..] == table[1..] + [r];
    }
  }

  // ---- the rules of everyone else, told rule by rule ----

  /** `kept` are the rules of `table` that stand at `places`: those without our marker. */
  ghost predicate UnmarkedAt(table: Table, kept: Table, places: seq<nat>) {
    && |places| == |kept|
    && (forall j, k :: 0 <= j < k < |places| ==> places[j] < places[k])
    && (forall k :: 0 <= k < |places| ==> places[k] < |table| && kept[k] == table[places[k]] && !kept[k].marked)
    && (forall i :: 0 <= i < |table| && !table[i].marked ==> i in places)
  }

  /** `kept` are the rules of `table` without our marker, all of them and in their order. */
  ghost predicate TheUnmarked(table: Table, kept: Table) { exists places :: UnmarkedAt(table, kept, places) }

  /** Every rule without our marker is there as often as before, and they are in the same order. */
  ghost predicate OthersUntouched(before: Table, after: Table) {
    && (forall r: Rule :: !r.marked ==> multiset(after)[r] == multiset(before)[r])
    && exists kept :: TheUnmarked(before, kept) && TheUnmarked(after, kept)
  }

  /** The places of the unmarked rules from `start` on. */
  function Places(table: Table, start: nat): (r: seq<nat>)
    requires start <= |table|
    ensures forall k :: 0 <= k < |r| ==> start <= r[k] < |table| && !table[r[k]].marked
    ensures forall j, k :: 0 <= j < k < |r| ==> r[j] < r[k]
    decreases |table| - start
  {
    if start == |table| then []
    else if table[start].marked then Places(table, start + 1)
    else [start] + Places(table, start + 1)
  }

  lemma {:induction false} PlacesHaveAll(table: Table, start: nat, i: nat)
    requires start <= i < |table| && !table[i].marked
    ensures i in Places(table, start)
    decreases |table| - start
  {
    if start < i {
      PlacesHaveAll(table, start + 1, i);
    }
  }

  lemma {:induction false} ForeignIsAsLong(table: Table, start: nat)
    requires start <= |table|
    ensures |Foreign(table[start..])| == |Places(table, start)|
    decreases |table| - start
  {
    if start < |table| {
      ForeignIsAsLong(table, start + 1);
      assert table[start..][1..] == table[start + 1..];
    }
  }

  lemma {:induction false} ForeignAtPlace(table: Table, start: nat, k: nat)
    requires start <= |table| && k < |Places(table, start)| && |Foreign(table[start..])| == |Places(table, start)|
    ensures Foreign(table[start..])[k] == table[Places(table, start)[k]]
    decreases |table| - start
  {
    assert table[start..][1..] == table[start + 1..] && table[start..][0] == table[start];
    if table[start].marked {
      ForeignAtPlace(table, start + 1, k);
    } else if k > 0 {
      ForeignAtPlace(table, start + 1, k - 1);
    }
  }

  lemma ForeignIsTheUnmarked(table: Table)
    ensures TheUnmarked(table, Foreign(table))
  {
    ForeignIsAsLong(table, 0);
    assert table[0..] == table;
    forall k | 0 <= k < |Places(table, 0)| ensures Foreign(table)[k] == table[Places(table, 0)[k]] {
      ForeignAtPlace(table, 0, k);
    }
    forall i | 0 <= i < |table| && !table[i].marked ensures i in Places(table, 0) {
      PlacesHaveAll(table, 0, i);
    }
    assert UnmarkedAt(table, Foreign(table), Places(table, 0));
  }

  lemma {:induction false} ForeignCounts(table: Table, r: Rule)
    ensures multiset(Foreign(table))[r] == if r.marked then 0 else multiset(table)[r]
  {
    if table != [] {
      ForeignCounts(table[1..], r);
      ConsTable(table);
      assert multiset(table) == multiset{table[0]} + multiset(table[1..]);
      assert !table[0].marked ==> multiset(Foreign(table)) == multiset{table[0]} + multiset(Foreign(table[1..]));
    }
  }

  lemma {:induction false} WithoutCounts(table: Table, namespace: Namespace, r: Rule)
    ensures multiset(WithoutOurs(table, namespace))[r]
            == if r.marked && r.namespace == namespace then 0 else multiset(table)[r]
  {
    if table != [] {
      WithoutCounts(table[1..], namespace, r);
      ConsTable(table);
      var rest := WithoutOurs(table[1..], namespace);
      assert multiset(table) == multiset{table[0]} + multiset(table[1..]);
      assert multiset([table[0]] + rest) == multiset{table[0]} + multiset(rest);
      assert [] + rest == rest;
    }
  }

  lemma SameForeignSameOthers(before: Table, after: Table)
    requires Foreign(after) == Foreign(before)
    ensures OthersUntouched(before, after)
  {
    ForeignIsTheUnmarked(before);
    ForeignIsTheUnmarked(after);
    forall r: Rule | !r.marked ensures multiset(after)[r] == multiset(before)[r] {
      ForeignCounts(before, r);
      ForeignCounts(after, r);
    }
  }

  /** How often a rule is in the table after a statement. */
  lemma ExecCounts(table: Table, statement: Statement, r: Rule)
    ensures var n := multiset(Exec(table, statement))[r];
            match statement
            case RemoveOurs(namespace) => n == if r.marked && r.namespace == namespace then 0 else multiset(table)[r]
            case RemoveAllOurs => n == if r.marked then 0 else multiset(table)[r]
            case AddOurs(namespace, servers) =>
              n == multiset(table)[r] + if r == Rule(true, namespace, servers) then 1 else 0
  {
    match statement
    case RemoveOurs(namespace) => WithoutCounts(table, namespace, r);
    case RemoveAllOurs => ForeignCounts(table, r);
    case AddOurs(_, _) =>
  }

  function OursAfter(ours: set<Namespace>, statement: Statement): set<Namespace> {
    match statement
    case RemoveOurs(namespace) => ours - {namespace}
    case RemoveAllOurs => {}
    case AddOurs(namespace, _) => ours + {namespace}
  }

  /** No statement of ours touches a foreign rule; and what each does to our own. */
  lemma ExecEffect(table: Table, statement: Statement)
    ensures Foreign(Exec(table, statement)) == Foreign(table)
    ensures Ours(Exec(table, statement)) == OursAfter(Ours(table), statement)
  {
    match statement
    case RemoveOurs(namespace) => ForeignKept(table, namespace);
    case RemoveAllOurs => ForeignHasNone(table);
    case AddOurs(namespace, servers) =>
      ForeignOfSnoc(table, Rule(true, namespace, servers));
      OursOfSnoc(table, Rule(true, namespace, servers));
  }

  /** No statement of ours changes how often a rule of somebody else is there, nor their order. */
  lemma OthersStay(table: Table, statement: Statement)
    ensures OthersUntouched(table, Exec(table, statement))
  {
    ExecEffect(table, statement);
    SameForeignSameOthers(table, Exec(table, statement));
  }

  lemma {:induction false} ExecAllKeepsForeign(table: Table, script: seq<Statement>)
    ensures Foreign(ExecAll(table, script)) == Foreign(table)
    decreases |script|
  {
    if script != [] {
      ExecEffect(table, script[0]);
      ExecAllKeepsForeign(Exec(table, script[0]), script[1..]);
    }
  }

  lemma {:induction false} ExecAllAppend(table: Table, a: seq<Statement>, b: seq<Statement>)
    ensures ExecAll(table, a + b) == ExecAll(ExecAll(table, a), b)
    decreases |a|
  {
    if a == [] {
      assert a + b == b;
    } else {
      assert (a + b)[1..] == a[1..] + b;
      ExecAllAppend(Exec(table, a[0]), a[1..], b);
    }
  }

  lemma {:induction false} ExecRemovals(table: Table, names: seq<Namespace>)
    ensures Ours(ExecAll(table, Removals(names))) == Ours(table) - AsSet(names)
    decreases |names|
  {
    if names != [] {
      ExecEffect(table, RemoveOurs(names[0]));
      assert Removals(names)[1..] == Removals(names[1..]);
      ExecRemovals(Exec(table, RemoveOurs(names[0])), names[1..]);
      assert AsSet(names) == {names[0]} + AsSet(names[1..]);
    }
  }

  lemma {:induction false} ExecAdditions(table: Table, names: seq<Namespace>, servers: seq<string>)
    ensures Ours(ExecAll(table, Additions(names, servers))) == Ours(table) + AsSet(names)
    decreases |names|
  {
    if names != [] {
      ExecEffect(table, AddOurs(names[0], servers));
      assert Additions(names, servers)[1..] == Additions(names[1..], servers);
      ExecAdditions(Exec(table, AddOurs(names[0], servers)), names[1..], servers);
      assert AsSet(names) == {names[0]} + AsSet(names[1..]);
    }
  }

  /** A complete plan made from what is really there leaves exactly the desired namespaces
      claimed, and planning again from there finds nothing to do. */
  lemma ApplyReachesTheDesired(table: Table, namespaces: seq<Namespace>, servers: seq<string>, present: seq<Namespace>)
    requires AsSet(present) == Ours(table)
    ensures var after := ExecAll(table, PlanApply(namespaces, servers, present).script);
            && Ours(after) == AsSet(namespaces)
            && Foreign(after) == Foreign(table)
            && forall again, servers' :: AsSet(again) == Ours(after) ==> PlanApply(namespaces, servers', again).Empty()
  {
    var plan := PlanApply(namespaces, servers, present);
    ExecAllAppend(table, Removals(plan.remove), Additions(plan.add, servers));
    ExecRemovals(table, plan.remove);
    ExecAdditions(ExecAll(table, Removals(plan.remove)), plan.add, servers);
    ExecAllKeepsForeign(table, plan.script);
    assert Ours(table) - AsSet(plan.remove) + AsSet(plan.add) == AsSet(namespaces);
    forall again, servers' | AsSet(again) == AsSet(namespaces)
      ensures PlanApply(namespaces, servers', again).Empty()
    {
      forall n ensures n in namespaces <==> n in again {
        assert n in namespaces <==> n in AsSet(namespaces);
        assert n in again <==> n in AsSet(again);
      }
      MinusOfCovered(Dedup(namespaces), Dedup(again));
      MinusOfCovered(Dedup(again), Dedup(namespaces));
    }
  }

  /** Removing a list of namespaces leaves every other rule, ours or not. */
  lemma RemoveLeavesTheRest(table: Table, names: seq<Namespace>)
    ensures Ours(ExecAll(table, PlanRemove(names).script)) == Ours(table) - AsSet(names)
    ensures Foreign(ExecAll(table, PlanRemove(names).script)) == Foreign(table)
  {
    ExecRemovals(table, Dedup(names));
    ExecAllKeepsForeign(table, PlanRemove(names).script);
    assert AsSet(Dedup(names)) == AsSet(names);
  }

  /** The marker scan needs no list: it removes all of ours and nothing else. */
  lemma RemoveAllLeavesForeign(table: Table)
    ensures ExecAll(table, PlanRemoveAll().script) == Foreign(table)
    ensures Ours(ExecAll(table, PlanRemoveAll().script)) == {}
    ensures TheUnmarked(table, ExecAll(table, PlanRemoveAll().script))
  {
    assert PlanRemoveAll().script[1..] == [];
    ForeignHasNone(table);
    ForeignIsTheUnmarked(table);
  }

  // ---- the servers of the rules ----

  ghost predicate FromPlan(before: Table, r: Rule, namespaces: seq<Namespace>, servers: seq<string>) {
    r in before || (r.marked && r.namespace in namespaces && r.servers == servers)
  }

  /** Every rule after a script of ours was there before or is one that the script adds. */
  lemma {:induction false} ScriptRules(table: Table, script: seq<Statement>, r: Rule)
    requires r in ExecAll(table, script)
    ensures r in table || (r.marked && AddOurs(r.namespace, r.servers) in script)
    decreases |script|
  {
    if script != [] {
      ScriptRules(Exec(table, script[0]), script[1..], r);
      if r in Exec(table, script[0]) {
        ExecCounts(table, script[0], r);
      }
    }
  }

  lemma {:induction false} AddedStays(table: Table, names: seq<Namespace>, servers: seq<string>, r: Rule)
    requires r in table || (r.marked && r.servers == servers && r.namespace in names)
    ensures r in ExecAll(table, Additions(names, servers))
    decreases |names|
  {
    if names != [] {
      assert Additions(names, servers)[1..] == Additions(names[1..], servers);
      AddedStays(Exec(table, AddOurs(names[0], servers)), names[1..], servers, r);
    }
  }

  /** However far it got, a plan brings in no rules but ours for namespaces of the zone, answered by
      the daemon's servers; and a complete one brings in every such rule that was not read as
      present. One that was read as present stays as it is, whatever its servers. */
  lemma ApplyRules(table: Table, namespaces: seq<Namespace>, servers: seq<string>, present: seq<Namespace>, n: nat)
    requires n <= |PlanApply(namespaces, servers, present).script|
    ensures forall r <- ExecAll(table, PlanApply(namespaces, servers, present).script[..n]) ::
              FromPlan(table, r, namespaces, servers)
    ensures forall ns <- namespaces :: ns !in present ==>
              Rule(true, ns, servers) in ExecAll(table, PlanApply(namespaces, servers, present).script)
  {
    var plan := PlanApply(namespaces, servers, present);
    var middle := ExecAll(table, Removals(plan.remove));
    ExecAllAppend(table, Removals(plan.remove), Additions(plan.add, servers));
    forall ns | ns in namespaces && ns !in present ensures Rule(true, ns, servers) in ExecAll(table, plan.script) {
      AddedStays(middle, plan.add, servers, Rule(true, ns, servers));
    }
    forall r | r in ExecAll(table, plan.script[..n]) ensures FromPlan(table, r, namespaces, servers) {
      ScriptRules(table, plan.script[..n], r);
    }
  }

  /** Whether all our rules name the daemon's servers after a complete plan made from what is really
      there: if and only if those that were there already did. A plan compares namespaces only. */
  lemma ServersExactly(table: Table, namespaces: seq<Namespace>, servers: seq<string>, present: seq<Namespace>)
    requires AsSet(present) == Ours(table)
    ensures var after := ExecAll(table, PlanApply(namespaces, servers, present).script);
            (forall r <- after :: r.marked ==> r.servers == servers)
            <==> (forall r <- table :: r.marked && r.namespace in namespaces ==> r.servers == servers)
  {
    var plan := PlanApply(namespaces, servers, present);
    var after := ExecAll(table, plan.script);
    ApplyReachesTheDesired(table, namespaces, servers, present);
    ApplyRules(table, namespaces, servers, present, |plan.script|);
    WholePrefix(plan.script);
    forall r | r in after && r.marked ensures r.namespace in namespaces {
      assert r.namespace in Ours(after);
    }
    forall r | r in table && r.marked && r.namespace in namespaces ensures r in after {
      ExecAllAppend(table, Removals(plan.remove), Additions(plan.add, servers));
      RemovalsLeave(table, plan.remove, r);
      AddedStays(ExecAll(table, Removals(plan.remove)), plan.add, servers, r);
    }
  }

  lemma {:induction false} RemovalsLeave(table: Table, names: seq<Namespace>, r: Rule)
    requires r in table && r.namespace !in names
    ensures r in ExecAll(table, Removals(names))
    decreases |names|
  {
    if names != [] {
      assert Removals(names)[1..] == Removals(names[1..]);
      ExecCounts(table, RemoveOurs(names[0]), r);
      RemovalsLeave(Exec(table, RemoveOurs(names[0])), names[1..], r);
    }
  }

  lemma {:induction false} AdditionsCount(table: Table, names: seq<Namespace>, servers: seq<string>, ns: Namespace)
    requires forall i, j :: 0 <= i < j < |names| ==> names[i] != names[j]
    ensures var r := Rule(true, ns, servers);
            multiset(ExecAll(table, Additions(names, servers)))[r] == multiset(table)[r] + if ns in names then 1 else 0
    decreases |names|
  {
    if names != [] {
      var added := AddOurs(names[0], servers);
      assert Additions(names, servers)[1..] == Additions(names[1..], servers);
      ExecCounts(table, added, Rule(true, ns, servers));
      AdditionsCount(Exec(table, added), names[1..], servers, ns);
      assert names == [names[0]] + names[1..];
    }
  }

  lemma NothingPresent(namespaces: seq<Namespace>, servers: seq<string>)
    ensures PlanApply(namespaces, servers, []).script == Additions(Dedup(namespaces), servers)
  {
    MinusNothing(Dedup(namespaces));
    assert Removals([]) + Additions(Dedup(namespaces), servers) == Additions(Dedup(namespaces), servers);
  }

  lemma {:induction false} MinusNothing(xs: seq<Namespace>)
    ensures Minus(xs, []) == xs
  {
    if xs != [] {
      MinusNothing(xs[1..]);
    }
  }

  /** A plan made without a reading of the table adds every rule of the zone once more, whether or not
      it is there already. */
  lemma BlindApplyDuplicates(table: Table, namespaces: seq<Namespace>, servers: seq<string>, ns: Namespace)
    ensures var r := Rule(true, ns, servers);
            multiset(ExecAll(table, PlanApply(namespaces, servers, []).script))[r]
            == multiset(table)[r] + if ns in namespaces then 1 else 0
  {
    NothingPresent(namespaces, servers);
    AdditionsCount(table, Dedup(namespaces), servers, ns);
  }
}
