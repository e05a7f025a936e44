/** What the importers establish, and what follows for the store. */
module ImportFixpoint {
  import opened Prelude
  import opened Texts
  import opened Names
  import opened Model
  import opened Store
  import opened Reconciliation
  import opened Fixpoint
  import opened Zones
  import opened StoreHistory
  import opened StoreFile
  import opened Importers

  /** The key of a mention whose name can be used. */
  function KeyOf(tx: Text, m: Mention): Option<string> {
    var checked := Validate(tx, m.raw);
    if checked.Ok() then Some(Normalise(tx, checked.name)) else None
  }

  /** The first mention of a name. */
  function FirstMention(tx: Text, mentions: seq<Mention>, key: string): Option<Mention> {
    if mentions == [] then None
    else
      var n := |mentions| - 1;
      match FirstMention(tx, mentions[..n], key)
      case Some(m) => Some(m)
      case None => if KeyOf(tx, mentions[n]) == Some(key) then Some(mentions[n]) else None
  }

  function Unusable(tx: Text, mentions: seq<Mention>): seq<string> {
    if mentions == [] then []
    else
      var n := |mentions| - 1;
      Unusable(tx, mentions[..n]) + if KeyOf(tx, mentions[n]).None? then [mentions[n].raw] else []
  }

  ghost predicate RecordOk(tx: Text, source: Source, d: Domain) {
    d.source == source && d.owner == HostOwner(tx, d.name) && Validate(tx, d.name).Ok() && Normalise(tx, d.name) == d.name
  }

  ghost predicate RecordsOk(tx: Text, source: Source, domains: seq<Domain>) {
    DistinctOwners(domains) && forall d <- domains :: RecordOk(tx, source, d)
  }

  lemma EnteredKeeps(tx: Text, source: Source, c: Collection, name: string, key: string, m: Mention, press: Press)
    requires RecordsOk(tx, source, c.domains)
    requires OwnerOf(key) == HostOwner(tx, name) && Validate(tx, name).Ok() && Normalise(tx, name) == name
    ensures RecordsOk(tx, source, Entered(source, c, name, key, m, press).domains)
  {
    var after := Entered(source, c, name, key, m, press).domains;
    match IndexOfOwner(c.domains, OwnerOf(key))
    case Some(i) =>
      assert c.domains[i] in c.domains;
      forall d | d in after ensures RecordOk(tx, source, d) {
        var k := PlaceOf(after, d);
        assert c.domains[k] in c.domains;
      }
    case None =>
      assert after[..|c.domains|] == c.domains;
      forall i, j | 0 <= i < j < |after| ensures after[i].owner != after[j].owner {
        assert after[i] in c.domains;
      }
  }

  lemma TakenKeeps(tx: Text, source: Source, c: Collection, m: Mention, press: Press)
    requires tx.Lawful() && RecordsOk(tx, source, c.domains)
    ensures RecordsOk(tx, source, Taken(tx, source, c, m, press).domains)
  {
    var checked := Validate(tx, m.raw);
    if checked.Ok() {
      ValidatedIsFixpoint(tx, m.raw);
      EnteredKeeps(tx, source, c, checked.name, Normalise(tx, checked.name), m, press);
    }
  }

  lemma {:induction false} CollectKeeps(tx: Text, source: Source, mentions: seq<Mention>, press: Press)
    requires tx.Lawful()
    ensures RecordsOk(tx, source, Collect(tx, source, mentions, press).domains)
  {
    if mentions != [] {
      var n := |mentions| - 1;
      CollectKeeps(tx, source, mentions[..n], press);
      TakenKeeps(tx, source, Collect(tx, source, mentions[..n], press), mentions[n], press);
    }
  }

  /** Whatever routers or containers there are: one record for a name, owned by that name, all
      of one source, every name usable as it stands. */
  lemma ImportersOwnByName(tx: Text, source: Source, mentions: seq<Mention>, press: Press)
    requires tx.Lawful() && source != Manual
    ensures var wanted := Collect(tx, source, mentions, press).domains;
            Imported(tx, source, wanted)
            && forall d <- wanted :: Validate(tx, d.name).Ok() && Normalise(tx, d.name) == d.name
  {
    CollectKeeps(tx, source, mentions, press);
    var wanted := Collect(tx, source, mentions, press).domains;
    forall d | d in wanted ensures RecordOk(tx, source, d) {
    }
  }

  // ---- which records, and from whom ----

  ghost predicate FromFirst(tx: Text, mentions: seq<Mention>, domains: seq<Domain>, key: string) {
    var found, first := IndexOfOwner(domains, OwnerOf(key)), FirstMention(tx, mentions, key);
    && (found.Some? <==> first.Some?)
    && (found.Some? ==>
          domains[found.value].address == first.value.address
          && domains[found.value].name == Validate(tx, first.value.raw).name)
  }

  lemma {:induction false} IndexSeesOwners(a: seq<Domain>, b: seq<Domain>, owner: string)
    requires |a| == |b| && forall i :: 0 <= i < |a| ==> a[i].owner == b[i].owner
    ensures IndexOfOwner(a, owner) == IndexOfOwner(b, owner)
  {
    if a != [] {
      IndexSeesOwners(a[..|a| - 1], b[..|b| - 1], owner);
    }
  }

  lemma IndexAfterAppend(domains: seq<Domain>, d: Domain, owner: string)
    ensures IndexOfOwner(domains + [d], owner)
            == match IndexOfOwner(domains, owner)
               case Some(i) => Some(i)
               case None => if d.owner == owner then Some(|domains|) else None
  {
    assert (domains + [d])[..|domains|] == domains;
  }

  lemma EnteredIndex(source: Source, c: Collection, name: string, key: string, m: Mention, press: Press, other: string)
    ensures var before, after := IndexOfOwner(c.domains, OwnerOf(other)),
                                 IndexOfOwner(Entered(source, c, name, key, m, press).domains, OwnerOf(other));
            && after == (if before.None? && other == key then Some(|c.domains|) else before)
            && (before.Some? ==>
                  Entered(source, c, name, key, m, press).domains[before.value].address == c.domains[before.value].address
                  && Entered(source, c, name, key, m, press).domains[before.value].name == c.domains[before.value].name)
  {
    var after := Entered(source, c, name, key, m, press).domains;
    match IndexOfOwner(c.domains, OwnerOf(key))
    case Some(i) => IndexSeesOwners(c.domains, after, OwnerOf(other));
    case None =>
      IndexAfterAppend(c.domains, Made(source, name, key, m, |c.domains|, press), OwnerOf(other));
      if OwnerOf(other) == OwnerOf(key) { OwnersAreInjective(other, key); }
  }

  lemma FirstMentionLast(tx: Text, mentions: seq<Mention>, key: string)
    requires mentions != []
    ensures var n := |mentions| - 1;
            FirstMention(tx, mentions, key)
            == if FirstMention(tx, mentions[..n], key).Some? then FirstMention(tx, mentions[..n], key)
               else if KeyOf(tx, mentions[n]) == Some(key) then Some(mentions[n]) else None
  {
  }

  lemma FirstStep(tx: Text, source: Source, c: Collection, mentions: seq<Mention>, press: Press, key: string)
    requires mentions != [] && FromFirst(tx, mentions[..|mentions| - 1], c.domains, key)
    ensures FromFirst(tx, mentions, Taken(tx, source, c, mentions[|mentions| - 1], press).domains, key)
  {
    var m := mentions[|mentions| - 1];
    FirstMentionLast(tx, mentions, key);
    var checked := Validate(tx, m.raw);
    if checked.Ok() {
      EnteredIndex(source, c, checked.name, Normalise(tx, checked.name), m, press, key);
    }
  }

  /** There is a record for a name exactly if somebody mentioned it in a usable form; its
      address and spelling are those of the first to do so, and what could not be used is
      reported, in order. */
  lemma {:induction false} FirstMentionDecides(tx: Text, source: Source, mentions: seq<Mention>, press: Press, key: string)
    ensures FromFirst(tx, mentions, Collect(tx, source, mentions, press).domains, key)
    ensures Collect(tx, source, mentions, press).invalid == Unusable(tx, mentions)
  {
    if mentions != [] {
      var n := |mentions| - 1;
      FirstMentionDecides(tx, source, mentions[..n], press, key);
      FirstStep(tx, source, Collect(tx, source, mentions[..n], press), mentions, press, key);
    }
  }

  // ---- the same observations again ----

  lemma EnteredAlike(source: Source, a: Collection, b: Collection, name: string, key: string, m: Mention, press: Press, press': Press)
    requires SameListing(a.domains, b.domains)
    ensures SameListing(Entered(source, a, name, key, m, press).domains, Entered(source, b, name, key, m, press').domains)
  {
    IndexSeesOwners(a.domains, b.domains, OwnerOf(key));
  }

  /** An import depends on what was observed, not on the ids and stamps it draws. */
  lemma {:induction false} SameObservations(tx: Text, source: Source, mentions: seq<Mention>, press: Press, press': Press)
    ensures SameListing(Collect(tx, source, mentions, press).domains, Collect(tx, source, mentions, press').domains)
  {
    if mentions != [] {
      var n := |mentions| - 1;
      SameObservations(tx, source, mentions[..n], press, press');
      var checked := Validate(tx, mentions[n].raw);
      if checked.Ok() {
        EnteredAlike(source, Collect(tx, source, mentions[..n], press), Collect(tx, source, mentions[..n], press'),
                     checked.name, Normalise(tx, checked.name), mentions[n], press, press');
      }
    }
  }

  /** Ids nobody has yet. */
  ghost predicate Issues(press: Press, domains: seq<Domain>) {
    && (forall a, b :: press.id(a) == press.id(b) ==> a == b)
    && (forall k, d :: d in domains ==> press.id(k) != d.id)
  }

  ghost predicate Pressed(domains: seq<Domain>, press: Press) {
    forall k :: 0 <= k < |domains| ==>
      domains[k].id == press.id(k) && domains[k].createdAt == press.created(k) && domains[k].updatedAt == press.updated(k)
  }

  lemma EnteredPressed(source: Source, c: Collection, name: string, key: string, m: Mention, press: Press)
    requires Pressed(c.domains, press)
    ensures Pressed(Entered(source, c, name, key, m, press).domains, press)
  {
  }

  lemma {:induction false} CollectedIds(tx: Text, source: Source, mentions: seq<Mention>, press: Press)
    ensures Pressed(Collect(tx, source, mentions, press).domains, press)
  {
    if mentions != [] {
      var n := |mentions| - 1;
      CollectedIds(tx, source, mentions[..n], press);
      var checked := Validate(tx, mentions[n].raw);
      if checked.Ok() {
        EnteredPressed(source, Collect(tx, source, mentions[..n], press), checked.name, Normalise(tx, checked.name),
                       mentions[n], press);
      }
    }
  }

  lemma CollectedAreFresh(tx: Text, source: Source, mentions: seq<Mention>, press: Press, initial: seq<Domain>)
    requires Issues(press, initial)
    ensures FreshIds(initial, Collect(tx, source, mentions, press).domains)
  {
    CollectedIds(tx, source, mentions, press);
    var wanted := Collect(tx, source, mentions, press).domains;
    forall c | c in wanted ensures forall d <- initial :: d.id != c.id {
      var k := PlaceOf(wanted, c);
    }
  }

  /** Where records are owned by their names and no name occurs twice, no owner does. */
  lemma OwnedByNameIsOneEach(tx: Text, domains: seq<Domain>, source: Source)
    requires source != Manual && DistinctNames(tx, domains) && OwnedByName(tx, domains)
    ensures OneEach(domains, source)
  {
    forall i, j | 0 <= i < j < |domains| && domains[i].source == source && domains[j].source == source && domains[i].owner != ""
      ensures domains[i].owner != domains[j].owner
    {
      assert domains[i] in domains && domains[j] in domains;
      if domains[i].owner == domains[j].owner {
        HostOwnerIsInjective(tx, domains[i].name, domains[j].name);
      }
    }
  }

  /** After any run without renames, polling the same routers or containers twice changes no
      record the second time. */
  lemma PollingIsIdempotent(tx: Text, ops: seq<Op>, source: Source, mentions: seq<Mention>, press: Press, press': Press,
                            clock: nat -> string, clock': nat -> string)
    requires tx.Lawful() && WellFormedRun(ops) && NoRenames(tx, ops) && source != Manual
    requires Issues(press, Run(tx, ops))
    ensures var wanted, again := Collect(tx, source, mentions, press).domains, Collect(tx, source, mentions, press').domains;
            var once := ReconcileChange(tx, Run(tx, ops), source, wanted, clock);
            once.Done? &&
            var twice := ReconcileChange(tx, once.domains, source, again, clock');
            twice.Done? && twice.domains == once.domains && !twice.result.Changed()
  {
    var initial := Run(tx, ops);
    NamesStayDistinct(tx, ops);
    RunHasDistinctIds(tx, ops);
    OwnedByNameIsOneEach(tx, initial, source);
    ImportersOwnByName(tx, source, mentions, press);
    CollectedAreFresh(tx, source, mentions, press, initial);
    SameObservations(tx, source, mentions, press, press');
    SecondPassChangesNothing(tx, source, initial, Collect(tx, source, mentions, press).domains,
                             Collect(tx, source, mentions, press').domains, clock, clock');
  }

  ghost predicate Addressed(domains: seq<Domain>) { forall d <- domains :: d.address != "" }

  lemma EnteredAddressed(source: Source, c: Collection, name: string, key: string, m: Mention, press: Press)
    requires Addressed(c.domains) && m.address != ""
    ensures Addressed(Entered(source, c, name, key, m, press).domains)
  {
    match IndexOfOwner(c.domains, OwnerOf(key))
    case Some(i) => assert c.domains[i] in c.domains;
    case None =>
  }

  lemma {:induction false} CollectedAddresses(tx: Text, source: Source, mentions: seq<Mention>, press: Press)
    requires forall m <- mentions :: m.address != ""
    ensures Addressed(Collect(tx, source, mentions, press).domains)
  {
    if mentions != [] {
      var n := |mentions| - 1;
      assert mentions[n] in mentions && forall m <- mentions[..n] :: m in mentions;
      CollectedAddresses(tx, source, mentions[..n], press);
      var checked := Validate(tx, mentions[n].raw);
      if checked.Ok() {
        EnteredAddressed(source, Collect(tx, source, mentions[..n], press), checked.name, Normalise(tx, checked.name),
                         mentions[n], press);
      }
    }
  }

  lemma CollectedAreStorable(tx: Text, source: Source, mentions: seq<Mention>, press: Press)
    requires tx.Lawful() && source != Manual && forall m <- mentions :: m.address != ""
    requires forall k :: press.id(k) != "" && press.created(k) != "" && press.updated(k) != ""
    ensures AllStorable(tx, Collect(tx, source, mentions, press).domains)
  {
    ImportersOwnByName(tx, source, mentions, press);
    CollectedIds(tx, source, mentions, press);
    CollectedAddresses(tx, source, mentions, press);
    var wanted := Collect(tx, source, mentions, press).domains;
    forall d | d in wanted ensures Storable(tx, d) {
      var k := PlaceOf(wanted, d);
      ValidNameIsTrim(tx, d.name);
    }
  }

  lemma ValidNameIsTrim(tx: Text, name: string)
    requires tx.Lawful() && Validate(tx, name).Ok() && Normalise(tx, name) == name
    ensures name != "" && tx.Strip(name) == name
  {
    ValidExactlyWellFormed(tx, name);
    var labels :| SpelledBy(name, labels);
    SpellingIsUnique(name, labels);
    assert name[0] in name && name[|name| - 1] in name;
    tx.StripFixpoint(name);
  }

  /** And a second poll of the same observations leaves the file of the store as it is. */
  lemma PollingTwiceWritesOnce(tx: Text, file: File, source: Source, mentions: seq<Mention>, press: Press, press': Press,
                               clock: nat -> string, clock': nat -> string, supply: Supply, supply': Supply)
    requires tx.Lawful() && source != Manual && forall m <- mentions :: m.address != ""
    requires supply.Lawful() && supply'.Lawful() && !TooNew(file)
    requires var domains := Load(tx, file, supply).domains;
             DistinctIds(domains) && Issues(press, domains) && OneEach(domains, source)
    requires forall k :: press.id(k) != "" && press.created(k) != "" && press.updated(k) != "" && clock(k) != ""
    ensures var wanted, again := Collect(tx, source, mentions, press).domains, Collect(tx, source, mentions, press').domains;
            var once := Mutated(tx, file, supply, ds => ReconcileChange(tx, ds, source, wanted, clock));
            Mutated(tx, once, supply', ds => ReconcileChange(tx, ds, source, again, clock')) == once
  {
    var domains := Load(tx, file, supply).domains;
    ImportersOwnByName(tx, source, mentions, press);
    CollectedAreFresh(tx, source, mentions, press, domains);
    CollectedAreStorable(tx, source, mentions, press);
    SameObservations(tx, source, mentions, press, press');
    SecondSyncDoesNotWrite(tx, file, source, Collect(tx, source, mentions, press).domains,
                           Collect(tx, source, mentions, press').domains, clock, clock', supply, supply');
  }
}
