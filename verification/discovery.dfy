/** Which records the importers make of a listing, told entry by entry. */
module Discovery {
  import opened Prelude
  import opened Texts
  import opened Names
  import opened Model
  import opened Rules
  import opened Zones
  import opened StoreHistory
  import opened Importers
  import opened ImportFixpoint
  import RulePrinting

  // ---- mentions and records ----

  /** The raw name works, and it works as `key`. */
  ghost predicate Usable(tx: Text, raw: string, key: string) { Normalise(tx, raw) == key && WellFormed(key) }

  predicate OccursAt(part: string, text: string, i: nat) { i + |part| <= |text| && text[i..i + |part|] == part }

  ghost predicate Occurs(part: string, text: string) { exists i: nat :: OccursAt(part, text, i) }

  lemma UsableExactly(tx: Text, m: Mention, key: string)
    ensures ImportFixpoint.KeyOf(tx, m) == Some(key) ==> Usable(tx, m.raw, Normalise(tx, m.raw))
    ensures tx.Lawful() ==> (ImportFixpoint.KeyOf(tx, m) == Some(key) <==> Usable(tx, m.raw, key))
    ensures ImportFixpoint.KeyOf(tx, m).None? <==> !WellFormed(Normalise(tx, m.raw))
  {
    ValidExactlyWellFormed(tx, m.raw);
    if tx.Lawful() && Validate(tx, m.raw).Ok() {
      ValidatedIsFixpoint(tx, m.raw);
    }
  }

  lemma {:induction false} FirstIsAMention(tx: Text, mentions: seq<Mention>, key: string)
    requires tx.Lawful()
    ensures var first := FirstMention(tx, mentions, key);
            && (first.Some? ==> first.value in mentions && Usable(tx, first.value.raw, key))
            && (first.None? ==> forall m <- mentions :: !Usable(tx, m.raw, key))
  {
    if mentions != [] {
      var n := |mentions| - 1;
      FirstIsAMention(tx, mentions[..n], key);
      UsableExactly(tx, mentions[n], key);
      SplitLast(mentions);
    }
  }

  lemma {:induction false} FirstOfBoth(tx: Text, a: seq<Mention>, b: seq<Mention>, key: string)
    ensures FirstMention(tx, a + b, key)
            == if FirstMention(tx, a, key).Some? then FirstMention(tx, a, key) else FirstMention(tx, b, key)
  {
    if b == [] {
      assert a + b == a;
    } else {
      assert (a + b)[..|a + b| - 1] == a + b[..|b| - 1];
      FirstOfBoth(tx, a, b[..|b| - 1], key);
    }
  }

  lemma {:induction false} ContainsIsOccurs(text: string, part: string)
    ensures Contains(text, part) <==> Occurs(part, text)
  {
    if part <= text {
      assert OccursAt(part, text, 0);
    } else if text != "" {
      ContainsIsOccurs(text[1..], part);
      if i: nat :| OccursAt(part, text[1..], i) {
        assert OccursAt(part, text, i + 1);
      }
      if i: nat :| OccursAt(part, text, i) {
        assert i == 0 ==> part <= text;
        assert text[1..][i - 1..i - 1 + |part|] == text[i..i + |part|];
        assert OccursAt(part, text[1..], i - 1);
      }
    }
  }

  lemma OccursLonger(part: string, text: string, more: string)
    requires Occurs(part, text)
    ensures Occurs(part, text + more)
  {
    var i: nat :| OccursAt(part, text, i);
    assert (text + more)[i..i + |part|] == text[i..i + |part|];
    assert OccursAt(part, text + more, i);
  }

  lemma OccursAtEnd(part: string, text: string)
    ensures Occurs(part, text + part)
  {
    assert OccursAt(part, text + part, |text|);
  }

  /** A note keeps what it says, begins as it began, and says who is new. */
  lemma NotedSaysBoth(source: Source, note: string, who: string)
    ensures var noted := Noted(source, note, who);
            && Occurs(who, noted) && note <= noted && forall part :: Occurs(part, note) ==> Occurs(part, noted)
  {
    ContainsIsOccurs(note, who);
    OccursAtEnd(who, note + ", ");
    OccursAtEnd(who, "");
    assert "" + who == who;
    forall part | Occurs(part, note) ensures Occurs(part, Noted(source, note, who)) {
      OccursLonger(part, note, ", " + who);
      assert note + (", " + who) == note + ", " + who;
      if note == "" {
        var i: nat :| OccursAt(part, note, i);
        assert OccursAt(part, Noted(source, note, who), 0);
      }
    }
  }

  /** The record for a name as everybody who mentioned it makes it. */
  ghost predicate Tells(tx: Text, source: Source, mentions: seq<Mention>, d: Domain, key: string) {
    && d.name == key && d.owner == "host:" + key && d.source == source && d.enabled && d.pinnedFields == []
    && (forall m <- mentions :: Usable(tx, m.raw, key) ==> Occurs(m.who, d.note))
    && FirstMention(tx, mentions, key).Some?
    && d.address == FirstMention(tx, mentions, key).value.address
    && FirstMention(tx, mentions, key).value.who <= d.note
  }

  ghost predicate AllTell(tx: Text, source: Source, mentions: seq<Mention>, domains: seq<Domain>) {
    forall d <- domains :: Tells(tx, source, mentions, d, d.name)
  }

  lemma OtherMention(tx: Text, source: Source, mentions: seq<Mention>, m: Mention, d: Domain)
    requires Tells(tx, source, mentions, d, d.name) && !Usable(tx, m.raw, d.name)
    ensures Tells(tx, source, mentions + [m], d, d.name)
  {
    assert (mentions + [m])[..|mentions|] == mentions;
    forall x | x in mentions + [m] && Usable(tx, x.raw, d.name) ensures Occurs(x.who, d.note) {
      assert x in mentions;
    }
  }

  lemma OneMoreMention(tx: Text, source: Source, mentions: seq<Mention>, m: Mention, d: Domain)
    requires Tells(tx, source, mentions, d, d.name)
    ensures Tells(tx, source, mentions + [m], d.(note := Noted(source, d.note, m.who)), d.name)
  {
    NotedSaysBoth(source, d.note, m.who);
    assert (mentions + [m])[..|mentions|] == mentions;
    var e := d.(note := Noted(source, d.note, m.who));
    forall x | x in mentions + [m] && Usable(tx, x.raw, d.name) ensures Occurs(x.who, e.note) {
      assert x in mentions || x == m;
    }
  }

  lemma MadeIsPlain(source: Source, key: string, m: Mention, k: nat, press: Press)
    ensures var d := Made(source, key, key, m, k, press);
            && d.name == key && d.owner == "host:" + key && d.source == source && d.enabled && d.pinnedFields == []
            && d.address == m.address && d.note == m.who
            && d.id == press.id(k) && d.createdAt == press.created(k) && d.updatedAt == press.updated(k)
  {
  }

  lemma FirstMentionTells(tx: Text, source: Source, mentions: seq<Mention>, m: Mention, key: string, k: nat, press: Press)
    requires tx.Lawful() && FirstMention(tx, mentions, key).None? && Usable(tx, m.raw, key)
    ensures Tells(tx, source, mentions + [m], Made(source, key, key, m, k, press), key)
  {
    FirstIsAMention(tx, mentions, key);
    UsableExactly(tx, m, key);
    MadeIsPlain(source, key, m, k, press);
    assert (mentions + [m])[..|mentions|] == mentions;
    var d := Made(source, key, key, m, k, press);
    OccursAtEnd(m.who, "");
    assert "" + m.who == m.who;
    forall x | x in mentions + [m] && Usable(tx, x.raw, key) ensures Occurs(x.who, d.note) {
      assert x == m;
    }
  }

  lemma OwnersAreKeys(tx: Text, source: Source, mentions: seq<Mention>, domains: seq<Domain>, key: string)
    requires AllTell(tx, source, mentions, domains)
    ensures var i := IndexOfOwner(domains, OwnerOf(key)); i.Some? ==> domains[i.value].name == key
  {
    var i := IndexOfOwner(domains, OwnerOf(key));
    if i.Some? {
      assert domains[i.value] in domains;
      OwnersAreInjective(domains[i.value].name, key);
    }
  }

  lemma EnteredTells(tx: Text, source: Source, c: Collection, mentions: seq<Mention>, m: Mention, key: string, press: Press, k: nat)
    requires tx.Lawful() && AllTell(tx, source, mentions, c.domains) && Usable(tx, m.raw, key)
    requires DistinctlyOwned(c.domains) && FromFirst(tx, mentions, c.domains, key)
    requires k < |Entered(source, c, key, key, m, press).domains|
    ensures var d := Entered(source, c, key, key, m, press).domains[k]; Tells(tx, source, mentions + [m], d, d.name)
  {
    OwnersAreKeys(tx, source, mentions, c.domains, key);
    var i := IndexOfOwner(c.domains, OwnerOf(key));
    if i.Some? && k == i.value {
      assert c.domains[k] in c.domains;
      OneMoreMention(tx, source, mentions, m, c.domains[k]);
    } else if k < |c.domains| {
      var d := c.domains[k];
      assert d in c.domains;
      assert d.name != key;
      OtherMention(tx, source, mentions, m, d);
    } else {
      FirstMentionTells(tx, source, mentions, m, key, k, press);
    }
  }

  lemma EnteredStaysDistinct(source: Source, c: Collection, m: Mention, key: string, press: Press)
    requires DistinctlyOwned(c.domains)
    ensures DistinctlyOwned(Entered(source, c, key, key, m, press).domains)
  {
    assert forall i :: 0 <= i < |c.domains| ==> c.domains[i] in c.domains;
  }

  lemma EnteredTell(tx: Text, source: Source, c: Collection, mentions: seq<Mention>, m: Mention, key: string, press: Press)
    requires tx.Lawful() && AllTell(tx, source, mentions, c.domains) && Usable(tx, m.raw, key)
    requires DistinctlyOwned(c.domains) && FromFirst(tx, mentions, c.domains, key)
    ensures AllTell(tx, source, mentions + [m], Entered(source, c, key, key, m, press).domains)
    ensures DistinctlyOwned(Entered(source, c, key, key, m, press).domains)
  {
    var after := Entered(source, c, key, key, m, press).domains;
    EnteredStaysDistinct(source, c, m, key, press);
    forall d | d in after ensures Tells(tx, source, mentions + [m], d, d.name) {
      var k := PlaceOf(after, d);
      EnteredTells(tx, source, c, mentions, m, key, press, k);
    }
  }

  predicate DistinctlyOwned(domains: seq<Domain>) {
    forall i, j :: 0 <= i < j < |domains| ==> domains[i].owner != domains[j].owner
  }

  lemma {:induction false} CollectedTell(tx: Text, source: Source, mentions: seq<Mention>, press: Press)
    requires tx.Lawful()
    ensures AllTell(tx, source, mentions, Collect(tx, source, mentions, press).domains)
    ensures DistinctlyOwned(Collect(tx, source, mentions, press).domains)
  {
    if mentions != [] {
      var n := |mentions| - 1;
      var before, m := Collect(tx, source, mentions[..n], press), mentions[n];
      CollectedTell(tx, source, mentions[..n], press);
      SplitLast(mentions);
      UsableExactly(tx, m, Normalise(tx, m.raw));
      if WellFormed(Normalise(tx, m.raw)) {
        ValidatedIsFixpoint(tx, m.raw);
        FirstMentionDecides(tx, source, mentions[..n], press, Normalise(tx, m.raw));
        EnteredTell(tx, source, before, mentions[..n], m, Normalise(tx, m.raw), press);
      } else {
        forall d | d in before.domains ensures Tells(tx, source, mentions, d, d.name) {
          FirstIsAMention(tx, mentions[..n], d.name);
          OtherMention(tx, source, mentions[..n], m, d);
        }
      }
    }
  }

  ghost predicate Has(domains: seq<Domain>, key: string) { exists d :: d in domains && d.owner == "host:" + key }

  /** There is a record for a name if and only if somebody mentioned it. */
  lemma MentionedExactly(tx: Text, source: Source, mentions: seq<Mention>, press: Press, key: string)
    requires tx.Lawful()
    ensures Has(Collect(tx, source, mentions, press).domains, key) <==> exists m :: m in mentions && Usable(tx, m.raw, key)
  {
    FirstMentionDecides(tx, source, mentions, press, key);
    FirstIsAMention(tx, mentions, key);
    var domains := Collect(tx, source, mentions, press).domains;
    var i := IndexOfOwner(domains, OwnerOf(key));
    if i.Some? {
      assert domains[i.value] in domains;
    }
  }

  lemma {:induction false} UnusableExactly(tx: Text, mentions: seq<Mention>, raw: string)
    ensures raw in Unusable(tx, mentions) <==> exists m :: m in mentions && m.raw == raw && !WellFormed(Normalise(tx, raw))
  {
    if mentions != [] {
      var n := |mentions| - 1;
      UnusableExactly(tx, mentions[..n], raw);
      UsableExactly(tx, mentions[n], raw);
      SplitLast(mentions);
    }
  }

  /** What cannot be used is reported, and nothing else is. */
  lemma InvalidExactly(tx: Text, source: Source, mentions: seq<Mention>, press: Press, raw: string)
    ensures raw in Collect(tx, source, mentions, press).invalid
            <==> exists m :: m in mentions && m.raw == raw && !WellFormed(Normalise(tx, raw))
  {
    FirstMentionDecides(tx, source, mentions, press, "");
    UnusableExactly(tx, mentions, raw);
  }

  // ---- Traefik's routers ----

  /** A router that counts, with its name and its rule: one that Traefik has not disabled. */
  ghost predicate Counts(tx: Text, entry: Json, owner: string, rule: string) {
    && entry.JObject?
    && (forall text :: "status" in entry.fields && entry.fields["status"] == JString(text) ==>
          tx.lower(text) == "enabled" || tx.lower(text) == "")
    && "rule" in entry.fields && entry.fields["rule"] == JString(rule)
    && "name" in entry.fields && entry.fields["name"] == JString(owner) && owner != ""
  }

  /** The router asks for the name. */
  ghost predicate Asks(tx: Text, entry: Json, owner: string, key: string) {
    exists rule, raw :: Counts(tx, entry, owner, rule) && raw in HostsOf(tx, rule) && Usable(tx, raw, key)
  }

  lemma RouterCounts(tx: Text, entry: Json, owner: string, rule: string)
    ensures RouterOf(tx, entry) == Some((owner, rule)) <==> Counts(tx, entry, owner, rule)
  {
  }

  lemma MentionsOfNames(names: seq<string>, who: string, address: string, m: Mention)
    ensures m in MentionsOf(names, who, address) <==> m.raw in names && m.who == who && m.address == address
  {
    if m.raw in names && m.who == who && m.address == address {
      var i := PlaceOf(names, m.raw);
      assert MentionsOf(names, who, address)[i] == m;
    }
  }

  /** Everything a router asks for is mentioned, in its name, and nothing else is. */
  lemma {:induction false} RoutersMention(tx: Text, routers: seq<Json>, address: string, m: Mention)
    ensures m in RouterMentions(tx, routers, address)
            <==> m.address == address
                 && exists entry, rule :: entry in routers && Counts(tx, entry, m.who, rule) && m.raw in HostsOf(tx, rule)
  {
    if routers != [] {
      var n := |routers| - 1;
      var entry := routers[n];
      RoutersMention(tx, routers[..n], address, m);
      SplitLast(routers);
      var router := RouterOf(tx, entry);
      if router.Some? {
        RouterCounts(tx, entry, router.value.0, router.value.1);
        MentionsOfNames(HostsOf(tx, router.value.1), router.value.0, address, m);
      }
      forall rule | Counts(tx, entry, m.who, rule) ensures router == Some((m.who, rule)) {
        RouterCounts(tx, entry, m.who, rule);
      }
    }
  }

  /** There is a record for a name if and only if some router that counts asks for it. */
  lemma RoutersExactly(tx: Text, routers: seq<Json>, address: string, press: Press, key: string)
    requires tx.Lawful()
    ensures Has(Collect(tx, Traefik, RouterMentions(tx, routers, address), press).domains, key)
            <==> exists entry, owner :: entry in routers && Asks(tx, entry, owner, key)
  {
    var mentions := RouterMentions(tx, routers, address);
    MentionedExactly(tx, Traefik, mentions, press, key);
    if m :| m in mentions && Usable(tx, m.raw, key) {
      RoutersMention(tx, routers, address, m);
      var entry, rule :| entry in routers && Counts(tx, entry, m.who, rule) && m.raw in HostsOf(tx, rule);
      assert Asks(tx, entry, m.who, key);
    }
    if entry, owner :| entry in routers && Asks(tx, entry, owner, key) {
      var rule, raw :| Counts(tx, entry, owner, rule) && raw in HostsOf(tx, rule) && Usable(tx, raw, key);
      RoutersMention(tx, routers, address, Mention(raw, owner, address));
    }
  }

  /** Each record is for one such name, at the address given, and its note names every router that
      asks for it. */
  lemma RouterRecords(tx: Text, routers: seq<Json>, address: string, press: Press, d: Domain)
    requires tx.Lawful() && d in Collect(tx, Traefik, RouterMentions(tx, routers, address), press).domains
    ensures d.owner == "host:" + d.name && d.source == Traefik && d.enabled && d.pinnedFields == [] && d.address == address
    ensures forall entry, owner :: entry in routers && Asks(tx, entry, owner, d.name) ==> Occurs(owner, d.note)
    ensures exists entry, owner :: entry in routers && Asks(tx, entry, owner, d.name) && owner <= d.note
  {
    var mentions := RouterMentions(tx, routers, address);
    CollectedTell(tx, Traefik, mentions, press);
    FirstIsAMention(tx, mentions, d.name);
    var first := FirstMention(tx, mentions, d.name).value;
    RoutersMention(tx, routers, address, first);
    var asking, rule :| asking in routers && Counts(tx, asking, first.who, rule) && first.raw in HostsOf(tx, rule);
    assert Asks(tx, asking, first.who, d.name);
    forall entry, owner | entry in routers && Asks(tx, entry, owner, d.name) ensures Occurs(owner, d.note) {
      var rule, raw :| Counts(tx, entry, owner, rule) && raw in HostsOf(tx, rule) && Usable(tx, raw, d.name);
      RoutersMention(tx, routers, address, Mention(raw, owner, address));
    }
  }

  /** What is skipped is reported: a host that cannot be used, and every regular expression. */
  lemma RoutersSkip(tx: Text, routers: seq<Json>, address: string, press: Press, raw: string)
    ensures raw in Collect(tx, Traefik, RouterMentions(tx, routers, address), press).invalid
            <==> !WellFormed(Normalise(tx, raw))
                 && exists entry, owner, rule :: entry in routers && Counts(tx, entry, owner, rule) && raw in HostsOf(tx, rule)
    ensures raw in SkippedRegexps(tx, routers)
            <==> exists entry, owner, rule :: entry in routers && Counts(tx, entry, owner, rule) && raw in RegexpsOf(tx, rule)
  {
    var mentions := RouterMentions(tx, routers, address);
    InvalidExactly(tx, Traefik, mentions, press, raw);
    if m :| m in mentions && m.raw == raw && !WellFormed(Normalise(tx, raw)) {
      RoutersMention(tx, routers, address, m);
    }
    if entry, owner, rule :| entry in routers && Counts(tx, entry, owner, rule) && raw in HostsOf(tx, rule) {
      RoutersMention(tx, routers, address, Mention(raw, owner, address));
    }
    RegexpsAreSkipped(tx, routers, raw);
  }

  lemma {:induction false} RegexpsAreSkipped(tx: Text, routers: seq<Json>, raw: string)
    ensures raw in SkippedRegexps(tx, routers)
            <==> exists entry, owner, rule :: entry in routers && Counts(tx, entry, owner, rule) && raw in RegexpsOf(tx, rule)
  {
    if routers != [] {
      var n := |routers| - 1;
      RegexpsAreSkipped(tx, routers[..n], raw);
      SplitLast(routers);
      var router := RouterOf(tx, routers[n]);
      if router.Some? {
        RouterCounts(tx, routers[n], router.value.0, router.value.1);
      }
      forall owner, rule | Counts(tx, routers[n], owner, rule) ensures router == Some((owner, rule)) {
        RouterCounts(tx, routers[n], owner, rule);
      }
    }
  }

  /** Routers whose rules are printed rule trees: there is a record for a name if and only if it is,
      normalised, a literal host of the tree of a router that counts. */
  lemma PrintedRoutersExactly(tx: Text, routers: seq<Json>, rules: seq<RulePrinting.Rule>, address: string, press: Press, key: string)
    requires tx.Lawful() && |routers| == |rules|
    requires forall i :: 0 <= i < |rules| ==> RulePrinting.Printable(tx, rules[i])
    requires forall i, owner, rule :: 0 <= i < |rules| && Counts(tx, routers[i], owner, rule) ==> rule == RulePrinting.Print(rules[i])
    ensures Has(Collect(tx, Traefik, RouterMentions(tx, routers, address), press).domains, key)
            <==> exists i, owner, raw :: 0 <= i < |rules| && Counts(tx, routers[i], owner, RulePrinting.Print(rules[i]))
                                         && raw in RulePrinting.ValuesOf(rules[i], false) && Usable(tx, raw, key)
  {
    RoutersExactly(tx, routers, address, press, key);
    forall i | 0 <= i < |rules|
      ensures forall raw :: raw in HostsOf(tx, RulePrinting.Print(rules[i])) <==> raw in RulePrinting.ValuesOf(rules[i], false)
    {
      RulePrinting.RuleRoundTrip(tx, rules[i]);
    }
    if entry, owner :| entry in routers && Asks(tx, entry, owner, key) {
      var rule, raw :| Counts(tx, entry, owner, rule) && raw in HostsOf(tx, rule) && Usable(tx, raw, key);
      var i := PlaceOf(routers, entry);
      assert rule == RulePrinting.Print(rules[i]);
    }
    if i, owner, raw :| 0 <= i < |rules| && Counts(tx, routers[i], owner, RulePrinting.Print(rules[i]))
                        && raw in RulePrinting.ValuesOf(rules[i], false) && Usable(tx, raw, key) {
      assert routers[i] in routers && Asks(tx, routers[i], owner, key);
    }
  }
}
