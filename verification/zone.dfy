/** The compiled zone and the match ladder. */
module Zones {
  import opened Prelude
  import opened Texts
  import opened Names
  import opened Model

  datatype Zone = Zone(exact: map<string, string>, wildcards: map<string, string>, serial: int)

  datatype Match = Match(address: string, apex: string, wildcard: bool)

  function Enter(tx: Text, zone: Zone, d: Domain): Zone {
    var name := Normalise(tx, d.name);
    if !d.enabled || name == "" then zone
    else if IsWildcard(name) then zone.(wildcards := zone.wildcards[ApexOf(name) := d.address])
    else zone.(exact := zone.exact[name := d.address])
  }

  function Compile(tx: Text, domains: seq<Domain>, serial: int): Zone {
    if domains == [] then Zone(map[], map[], serial)
    else Enter(tx, Compile(tx, domains[..|domains| - 1], serial), domains[|domains| - 1])
  }

  method FromDomains(tx: Text, domains: seq<Domain>, serial: int) returns (zone: Zone)
    ensures zone == Compile(tx, domains, serial)
  {
    var exact: map<string, string> := map[];
    var wildcards: map<string, string> := map[];
    for i := 0 to |domains|
      invariant Zone(exact, wildcards, serial) == Compile(tx, domains[..i], serial)
    {
      assert domains[..i + 1][..i] == domains[..i];
      var d := domains[i];
      if d.enabled {
        var name := Normalise(tx, d.name);
        if name != "" {
          if IsWildcard(name) {
            wildcards := wildcards[ApexOf(name) := d.address];
          } else {
            exact := exact[name := d.address];
          }
        }
      }
    }
    assert domains[..|domains|] == domains;
    zone := Zone(exact, wildcards, serial);
  }

  /** The ancestors of a name, longest first; never the name itself. */
  function ParentSuffixes(name: string): seq<string> {
    var labels := Split(name, '.');
    seq(|labels| - 1, i requires 0 <= i < |labels| - 1 => Join(labels[i + 1..], '.'))
  }

  function FirstWildcard(wildcards: map<string, string>, suffixes: seq<string>): (r: Option<Match>)
    ensures r.Some? ==> r.value.wildcard && r.value.apex in wildcards
  {
    if suffixes == [] then None
    else if suffixes[0] in wildcards then Some(Match(wildcards[suffixes[0]], suffixes[0], true))
    else FirstWildcard(wildcards, suffixes[1..])
  }

  function MatchName(tx: Text, zone: Zone, qname: string): Option<Match> {
    var name := Normalise(tx, qname);
    if name == "" then None
    else if name in zone.exact then Some(Match(zone.exact[name], name, false))
    else FirstWildcard(zone.wildcards, ParentSuffixes(name))
  }

  /** The namespaces to register. */
  function Namespaces(zone: Zone): set<string> {
    zone.exact.Keys + set a | a in zone.wildcards.Keys :: "." + a
  }

  // ---- the declarative rule over the record list ----

  /** Record `i` is the last enabled one whose normalised name is `key`. */
  ghost predicate LastNamed(tx: Text, domains: seq<Domain>, key: string, i: int) {
    && 0 <= i < |domains| && domains[i].enabled && Normalise(tx, domains[i].name) == key
    && forall j :: i < j < |domains| ==> !(domains[j].enabled && Normalise(tx, domains[j].name) == key)
  }

  ghost predicate Held(tx: Text, domains: seq<Domain>, key: string) {
    exists i :: LastNamed(tx, domains, key, i)
  }

  /** `suffix` follows one of the dots of `name`. */
  ghost predicate ProperSuffix(name: string, suffix: string) {
    |suffix| < |name| && name[|name| - |suffix|..] == suffix && name[|name| - |suffix| - 1] == '.'
  }

  ghost predicate ExactAnswer(tx: Text, domains: seq<Domain>, name: string, m: Match) {
    !m.wildcard && m.apex == name && !IsWildcard(name)
    && exists i :: LastNamed(tx, domains, name, i) && domains[i].address == m.address
  }

  /** The longest proper suffix that some wildcard record is built on. */
  ghost predicate WildcardAnswer(tx: Text, domains: seq<Domain>, name: string, m: Match) {
    m.wildcard && ProperSuffix(name, m.apex)
    && (exists i :: LastNamed(tx, domains, WILDCARD_PREFIX + m.apex, i) && domains[i].address == m.address)
    && forall s :: ProperSuffix(name, s) && Held(tx, domains, WILDCARD_PREFIX + s) ==> |s| <= |m.apex|
  }

  ghost predicate LadderAnswer(tx: Text, domains: seq<Domain>, name: string, m: Match) {
    name != "" &&
    if !IsWildcard(name) && Held(tx, domains, name) then ExactAnswer(tx, domains, name, m)
    else WildcardAnswer(tx, domains, name, m)
  }

  /** The last record either takes the key over or leaves it to the ones before. */
  lemma LastNamedStep(tx: Text, domains: seq<Domain>, key: string, i: int)
    requires domains != []
    ensures var n := |domains| - 1;
            LastNamed(tx, domains, key, i) <==>
            if domains[n].enabled && Normalise(tx, domains[n].name) == key then i == n
            else LastNamed(tx, domains[..n], key, i)
  {
    var n := |domains| - 1;
    assert 0 <= i < n ==> domains[i] == domains[..n][i];
    assert forall j :: i < j < n && 0 <= i ==> domains[j] == domains[..n][j];
  }

  function Lookup(zone: Zone, key: string): Option<string> {
    if IsWildcard(key) then
      if ApexOf(key) in zone.wildcards then Some(zone.wildcards[ApexOf(key)]) else None
    else
      if key in zone.exact then Some(zone.exact[key]) else None
  }

  lemma EnterLooksUp(tx: Text, zone: Zone, d: Domain, key: string)
    requires key != ""
    ensures Lookup(Enter(tx, zone, d), key) ==
            if d.enabled && Normalise(tx, d.name) == key then Some(d.address) else Lookup(zone, key)
  {
    var name := Normalise(tx, d.name);
    if IsWildcard(key) && IsWildcard(name) && ApexOf(name) == ApexOf(key) {
      assert name == WILDCARD_PREFIX + name[2..] && key == WILDCARD_PREFIX + key[2..];
    }
  }

  /** What the two dictionaries hold, said over the record list. */
  lemma {:induction false} CompiledHolds(tx: Text, domains: seq<Domain>, serial: int, key: string)
    requires key != ""
    ensures Lookup(Compile(tx, domains, serial), key).Some? <==> Held(tx, domains, key)
    ensures forall i :: LastNamed(tx, domains, key, i) ==>
              Lookup(Compile(tx, domains, serial), key) == Some(domains[i].address)
  {
    if domains != [] {
      var n := |domains| - 1;
      CompiledHolds(tx, domains[..n], serial, key);
      EnterLooksUp(tx, Compile(tx, domains[..n], serial), domains[n], key);
      forall i ensures LastNamed(tx, domains, key, i) <==>
                       if domains[n].enabled && Normalise(tx, domains[n].name) == key then i == n
                       else LastNamed(tx, domains[..n], key, i)
      {
        LastNamedStep(tx, domains, key, i);
      }
      assert forall i :: LastNamed(tx, domains[..n], key, i) ==> domains[i] == domains[..n][i];
    }
  }

  /** The ancestors are what follows each dot, from the left. */
  lemma {:induction false} SuffixesFollowDots(name: string)
    ensures ParentSuffixes(name) ==
            if '.' !in name then []
            else var rest := AfterFirstDot(name); [rest] + ParentSuffixes(rest)
  {
    if '.' !in name {
      SplitOfPiece(name, '.');
    } else {
      var d := FirstDot(name);
      var rest := AfterFirstDot(name);
      assert name == name[..d] + ['.'] + rest;
      SplitAt(name[..d], rest, '.');
      JoinOfSplit(rest, '.');
      var labels, tail := Split(name, '.'), Split(rest, '.');
      assert labels == [name[..d]] + tail;
      assert labels[1..] == tail;
      forall i | 1 <= i < |labels| - 1 ensures labels[i + 1..] == tail[i..] {
      }
      assert ParentSuffixes(name)[0] == rest;
      assert ParentSuffixes(name)[1..] == ParentSuffixes(rest);
    }
  }

  function FirstDot(name: string): (d: nat)
    requires '.' in name
    ensures d < |name| && name[d] == '.' && '.' !in name[..d]
  {
    if name[0] == '.' then 0
    else
      assert name == [name[0]] + name[1..];
      var d := FirstDot(name[1..]) + 1;
      assert name[..d] == [name[0]] + name[1..][..d - 1];
      d
  }

  function AfterFirstDot(name: string): (rest: string)
    requires '.' in name
    ensures |rest| < |name|
  {
    name[FirstDot(name) + 1..]
  }

  /** A proper suffix is what follows the first dot, or a proper suffix of that. */
  lemma SuffixOfRest(name: string, s: string)
    ensures ProperSuffix(name, s) <==>
            '.' in name && (s == AfterFirstDot(name) || ProperSuffix(AfterFirstDot(name), s))
  {
    if '.' in name {
      var d := FirstDot(name);
      var rest := AfterFirstDot(name);
      if ProperSuffix(name, s) {
        var k := |name| - |s| - 1;
        assert d <= k;
        assert k > d ==> rest[|rest| - |s|..] == s && rest[|rest| - |s| - 1] == '.';
      }
      if ProperSuffix(rest, s) {
        assert name[|name| - |s|..] == rest[|rest| - |s|..];
      }
    }
  }

  /** The first hit among the ancestors is the longest one. */
  lemma {:induction false} FirstIsLongest(tx: Text, domains: seq<Domain>, serial: int, name: string)
    ensures var found := FirstWildcard(Compile(tx, domains, serial).wildcards, ParentSuffixes(name));
            && (found.Some? ==> WildcardAnswer(tx, domains, name, found.value))
            && (found.None? ==> forall s :: ProperSuffix(name, s) ==> !Held(tx, domains, WILDCARD_PREFIX + s))
    decreases |name|
  {
    SuffixesFollowDots(name);
    forall s ensures ProperSuffix(name, s) <==>
                     '.' in name && (s == AfterFirstDot(name) || ProperSuffix(AfterFirstDot(name), s)) {
      SuffixOfRest(name, s);
    }
    if '.' in name {
      var rest := AfterFirstDot(name);
      var suffixes := ParentSuffixes(name);
      assert suffixes[0] == rest && suffixes[1..] == ParentSuffixes(rest);
      CompiledHolds(tx, domains, serial, WILDCARD_PREFIX + rest);
      assert ApexOf(WILDCARD_PREFIX + rest) == rest;
      FirstIsLongest(tx, domains, serial, rest);
    }
  }

  lemma LastIsUnique(tx: Text, domains: seq<Domain>, key: string, i: int, j: int)
    requires LastNamed(tx, domains, key, i) && LastNamed(tx, domains, key, j)
    ensures i == j
  {
  }

  lemma AnswersAgree(tx: Text, domains: seq<Domain>, name: string, a: Match, b: Match)
    requires LadderAnswer(tx, domains, name, a) && LadderAnswer(tx, domains, name, b)
    ensures a == b
  {
    if !IsWildcard(name) && Held(tx, domains, name) {
      var i :| LastNamed(tx, domains, name, i) && domains[i].address == a.address;
      var j :| LastNamed(tx, domains, name, j) && domains[j].address == b.address;
      LastIsUnique(tx, domains, name, i, j);
    } else {
      assert Held(tx, domains, WILDCARD_PREFIX + a.apex) && Held(tx, domains, WILDCARD_PREFIX + b.apex);
      assert |a.apex| == |b.apex|;
      assert a.apex == b.apex;
      var i :| LastNamed(tx, domains, WILDCARD_PREFIX + a.apex, i) && domains[i].address == a.address;
      var j :| LastNamed(tx, domains, WILDCARD_PREFIX + a.apex, j) && domains[j].address == b.address;
      LastIsUnique(tx, domains, WILDCARD_PREFIX + a.apex, i, j);
    }
  }

  lemma LookupFindsTheAnswer(tx: Text, domains: seq<Domain>, serial: int, qname: string)
    ensures var name := Normalise(tx, qname);
            match MatchName(tx, Compile(tx, domains, serial), qname)
            case Some(m) => LadderAnswer(tx, domains, name, m)
            case None => forall m :: !LadderAnswer(tx, domains, name, m)
  {
    var name := Normalise(tx, qname);
    var zone := Compile(tx, domains, serial);
    if name != "" {
      CompiledHolds(tx, domains, serial, name);
      FirstIsLongest(tx, domains, serial, name);
      KeysAreHeld(tx, domains, serial);
      if !IsWildcard(name) && Held(tx, domains, name) {
        var i :| LastNamed(tx, domains, name, i);
        assert ExactAnswer(tx, domains, name, MatchName(tx, zone, qname).value);
      } else {
        assert name !in zone.exact;
        forall m | WildcardAnswer(tx, domains, name, m)
          ensures MatchName(tx, zone, qname).Some?
        {
          assert Held(tx, domains, WILDCARD_PREFIX + m.apex);
        }
      }
    }
  }

  /** The dictionary lookup is the declarative rule: it answers exactly what the rule over the
      record list answers, and nothing where the rule answers nothing. */
  lemma MatchIsTheLadder(tx: Text, domains: seq<Domain>, serial: int, qname: string, m: Match)
    ensures MatchName(tx, Compile(tx, domains, serial), qname) == Some(m)
            <==> LadderAnswer(tx, domains, Normalise(tx, qname), m)
  {
    LookupFindsTheAnswer(tx, domains, serial, qname);
    var found := MatchName(tx, Compile(tx, domains, serial), qname);
    if found.Some? && LadderAnswer(tx, domains, Normalise(tx, qname), m) {
      AnswersAgree(tx, domains, Normalise(tx, qname), m, found.value);
    }
  }

  // ---- what the namespaces cover ----

  /** How the system resolver reads a namespace: a leading dot means the whole subtree. */
  ghost predicate Covers(ns: string, name: string) {
    if ns != "" && ns[0] == '.' then |ns| <= |name| && name[|name| - |ns|..] == ns
    else ns == name
  }

  ghost predicate AllValid(tx: Text, domains: seq<Domain>) {
    forall d <- domains :: d.enabled ==> Validate(tx, d.name).Ok()
  }

  lemma HeldNameIsValid(tx: Text, domains: seq<Domain>, key: string)
    requires AllValid(tx, domains) && Held(tx, domains, key)
    ensures WellFormed(key) && key != "" && key[0] != '.'
  {
    var i :| LastNamed(tx, domains, key, i);
    assert domains[i] in domains;
    ValidExactlyWellFormed(tx, domains[i].name);
    var labels :| SpelledBy(key, labels);
    SpellingIsUnique(key, labels);
  }

  /** Every key of the dictionaries comes from a record. */
  lemma {:induction false} KeysAreHeld(tx: Text, domains: seq<Domain>, serial: int)
    ensures forall k <- Compile(tx, domains, serial).exact :: k != "" && !IsWildcard(k)
    ensures forall a <- Compile(tx, domains, serial).wildcards :: Held(tx, domains, WILDCARD_PREFIX + a)
  {
    if domains != [] {
      var n := |domains| - 1;
      KeysAreHeld(tx, domains[..n], serial);
      forall a | a in Compile(tx, domains, serial).wildcards
        ensures Held(tx, domains, WILDCARD_PREFIX + a)
      {
        var key := WILDCARD_PREFIX + a;
        assert ApexOf(key) == a;
        CompiledHolds(tx, domains, serial, key);
      }
    }
  }

  lemma ExactIsCovered(tx: Text, domains: seq<Domain>, serial: int, name: string)
    requires AllValid(tx, domains) && name in Compile(tx, domains, serial).exact
    ensures name in Namespaces(Compile(tx, domains, serial)) && Covers(name, name)
  {
    KeysAreHeld(tx, domains, serial);
    CompiledHolds(tx, domains, serial, name);
    HeldNameIsValid(tx, domains, name);
  }

  lemma WildcardIsCovered(tx: Text, domains: seq<Domain>, serial: int, name: string)
    requires FirstWildcard(Compile(tx, domains, serial).wildcards, ParentSuffixes(name)).Some?
    ensures var zone := Compile(tx, domains, serial);
            var ns := "." + FirstWildcard(zone.wildcards, ParentSuffixes(name)).value.apex;
            ns in Namespaces(zone) && Covers(ns, name)
  {
    FirstIsLongest(tx, domains, serial, name);
    SuffixCovers(name, FirstWildcard(Compile(tx, domains, serial).wildcards, ParentSuffixes(name)).value.apex);
  }

  lemma CoveredIsFound(tx: Text, domains: seq<Domain>, serial: int, qname: string, ns: string)
    requires tx.Lawful() && AllValid(tx, domains) && Normalise(tx, qname) != ""
    requires ns in Namespaces(Compile(tx, domains, serial)) && Covers(ns, Normalise(tx, qname))
    ensures MatchName(tx, Compile(tx, domains, serial), qname).Some?
  {
    var name := Normalise(tx, qname);
    var zone := Compile(tx, domains, serial);
    KeysAreHeld(tx, domains, serial);
    FirstIsLongest(tx, domains, serial, name);
    if ns in zone.exact {
      CompiledHolds(tx, domains, serial, ns);
      HeldNameIsValid(tx, domains, ns);
    } else {
      var s :| s in zone.wildcards && ns == "." + s;
      SuffixCovers(name, s);
    }
  }

  /** With validated records, a query is answered locally exactly when a registered namespace
      sends it here. */
  lemma AnsweredIffCovered(tx: Text, domains: seq<Domain>, serial: int, qname: string)
    requires tx.Lawful() && AllValid(tx, domains)
    ensures MatchName(tx, Compile(tx, domains, serial), qname).Some?
            <==> Normalise(tx, qname) != ""
                 && exists ns :: ns in Namespaces(Compile(tx, domains, serial)) && Covers(ns, Normalise(tx, qname))
  {
    var namespaces, name := Namespaces(Compile(tx, domains, serial)), Normalise(tx, qname);
    if MatchName(tx, Compile(tx, domains, serial), qname).Some? {
      if name in Compile(tx, domains, serial).exact {
        ExactIsCovered(tx, domains, serial, name);
      } else {
        WildcardIsCovered(tx, domains, serial, name);
      }
    } else if name != "" {
      forall ns | ns in namespaces && Covers(ns, name) ensures false {
        CoveredIsFound(tx, domains, serial, qname, ns);
      }
    }
  }

  lemma SuffixCovers(name: string, s: string)
    ensures Covers("." + s, name) <==> ProperSuffix(name, s)
  {
    var ns := "." + s;
    if Covers(ns, name) {
      assert name[|name| - |ns|..][0] == '.' && name[|name| - |ns|..][1..] == s;
    }
    if ProperSuffix(name, s) {
      assert name[|name| - |ns|..] == ['.'] + s;
    }
  }

  // ---- records that keep their own address ----

  ghost predicate DistinctNames(tx: Text, domains: seq<Domain>) {
    forall i, j :: 0 <= i < j < |domains| ==> Normalise(tx, domains[i].name) != Normalise(tx, domains[j].name)
  }

  /** With pairwise distinct names, asking for an enabled record's own name gives its own address. */
  lemma OwnAddress(tx: Text, domains: seq<Domain>, serial: int, i: nat)
    requires tx.Lawful() && DistinctNames(tx, domains)
    requires i < |domains| && domains[i].enabled && Validate(tx, domains[i].name).Ok()
    ensures var name := Normalise(tx, domains[i].name);
            MatchName(tx, Compile(tx, domains, serial), domains[i].name)
            == Some(Match(domains[i].address, ApexOf(name), IsWildcard(name)))
  {
    var name := Normalise(tx, domains[i].name);
    ValidExactlyWellFormed(tx, domains[i].name);
    var labels :| SpelledBy(name, labels);
    SpellingIsUnique(name, labels);
    assert LastNamed(tx, domains, name, i);
    var m := Match(domains[i].address, ApexOf(name), IsWildcard(name));
    if IsWildcard(name) {
      assert name == WILDCARD_PREFIX + ApexOf(name);
      forall s | ProperSuffix(name, s) ensures |s| <= |m.apex| {
        assert name[1] == '.' && name[0] == '*';
      }
    } else {
      assert Held(tx, domains, name);
    }
    assert LadderAnswer(tx, domains, name, m);
    MatchIsTheLadder(tx, domains, serial, domains[i].name, m);
  }
}
