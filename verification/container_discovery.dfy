/** Which records the label importer makes of a container listing, told label by label. */
module ContainerDiscovery {
  import opened Prelude
  import opened Texts
  import opened Names
  import opened Model
  import opened Rules
  import opened Importers
  import opened ImportFixpoint
  import opened Discovery

  type Labels = seq<(string, string)>

  /** The last label that is `key` once lower-cased has this value. */
  ghost predicate Says(tx: Text, labels: Labels, key: string, value: string) {
    exists i :: 0 <= i < |labels| && tx.lower(labels[i].0) == key && labels[i].1 == value
                && forall j :: i < j < |labels| ==> tx.lower(labels[j].0) != key
  }

  ghost predicate Silent(tx: Text, labels: Labels, key: string) {
    forall i :: 0 <= i < |labels| ==> tx.lower(labels[i].0) != key
  }

  predicate Affirmative(text: string) { text == "1" || text == "true" || text == "yes" || text == "on" }

  ghost predicate SwitchedOn(tx: Text, labels: Labels) {
    exists value :: Says(tx, labels, "hostbridge.enable", value) && Affirmative(tx.lower(tx.Strip(value)))
  }

  ghost predicate NamedAlone(tx: Text, labels: Labels, raw: string) {
    exists value :: Says(tx, labels, "hostbridge.domain", value) && raw == tx.Strip(value)
  }

  ghost predicate Listed(tx: Text, labels: Labels, raw: string) {
    exists value, piece :: Says(tx, labels, "hostbridge.domains", value) && piece in Split(value, ',') && raw == tx.Strip(piece)
  }

  ghost predicate RuleOf(key: string) {
    exists router :: router != "" && '.' !in router && key == "traefik.http.routers." + router + ".rule"
  }

  /** The label of some Traefik router's rule; a line break may follow it. */
  ghost predicate RuleLabel(key: string) { RuleOf(key) || exists plain :: RuleOf(plain) && key == plain + "\n" }

  ghost predicate InARule(tx: Text, labels: Labels, raw: string) {
    exists key, rule :: RuleLabel(key) && Says(tx, labels, key, rule) && raw in HostsOf(tx, rule)
  }

  /** The labels ask for this raw name. */
  ghost predicate Wants(tx: Text, labels: Labels, raw: string) {
    (SwitchedOn(tx, labels) && raw != "" && (NamedAlone(tx, labels, raw) || Listed(tx, labels, raw)))
    || InARule(tx, labels, raw)
  }

  /** The address the labels give, or the default one. */
  ghost predicate At(tx: Text, labels: Labels, address: string) {
    (exists value :: Says(tx, labels, "hostbridge.address", value) && tx.Strip(value) != "" && address == tx.Strip(value))
    || (address == "127.0.0.1" && forall value :: Says(tx, labels, "hostbridge.address", value) ==> tx.Strip(value) == "")
  }

  // ---- the dictionary of labels ----

  predicate DistinctKeys(labels: Labels) { forall i, j :: 0 <= i < j < |labels| ==> labels[i].0 != labels[j].0 }

  lemma {:induction false} PutHas(labels: Labels, key: string, value: string, pair: (string, string))
    requires DistinctKeys(labels)
    ensures pair in Put(labels, key, value) <==> pair == (key, value) || (pair in labels && pair.0 != key)
    ensures DistinctKeys(Put(labels, key, value))
  {
    if labels != [] {
      var rest := labels[1..];
      assert labels == [labels[0]] + rest;
      if labels[0].0 == key {
        assert forall p <- rest :: p.0 != key;
      } else {
        PutHas(rest, key, value, pair);
        forall p | p in Put(rest, key, value) ensures p.0 != labels[0].0 {
          PutHas(rest, key, value, p);
        }
      }
    }
  }

  /** The dictionary has for each key what the last label of that key says. */
  lemma {:induction false} LoweredHas(tx: Text, labels: Labels, key: string, value: string)
    ensures DistinctKeys(Lowered(tx, labels))
    ensures (key, value) in Lowered(tx, labels) <==> Says(tx, labels, key, value)
  {
    if labels != [] {
      var n := |labels| - 1;
      var before, last := labels[..n], labels[n];
      LoweredHas(tx, before, key, value);
      PutHas(Lowered(tx, before), tx.lower(last.0), last.1, (key, value));
      if tx.lower(last.0) == key {
        assert labels[n] == last;
      } else {
        if i :| 0 <= i < |before| && tx.lower(before[i].0) == key && before[i].1 == value
                && forall j :: i < j < |before| ==> tx.lower(before[j].0) != key {
          assert labels[i] == before[i] && forall j :: i < j < n ==> labels[j] == before[j];
        }
        if i :| 0 <= i < |labels| && tx.lower(labels[i].0) == key && labels[i].1 == value
                && forall j :: i < j < |labels| ==> tx.lower(labels[j].0) != key {
          assert before[i] == labels[i] && forall j :: i < j < n ==> labels[j] == before[j];
        }
      }
    }
  }

  lemma {:induction false} LabelIsThePair(labels: Labels, key: string, value: string)
    requires DistinctKeys(labels)
    ensures (key, value) in labels ==> Label(labels, key) == value
    ensures (key, Label(labels, key)) in labels || (Label(labels, key) == "" && forall p <- labels :: p.0 != key)
  {
    if labels != [] {
      LabelIsThePair(labels[1..], key, value);
      assert labels == [labels[0]] + labels[1..];
    }
  }

  /** A lookup finds what the labels say, or the empty text. */
  lemma LookupSays(tx: Text, labels: Labels, key: string)
    ensures var found := Label(Lowered(tx, labels), key);
            && (forall value :: Says(tx, labels, key, value) ==> value == found)
            && (Says(tx, labels, key, found) || (found == "" && forall value :: !Says(tx, labels, key, value)))
  {
    var found := Label(Lowered(tx, labels), key);
    LoweredHas(tx, labels, key, found);
    LabelIsThePair(Lowered(tx, labels), key, found);
    forall value ensures (key, value) in Lowered(tx, labels) <==> Says(tx, labels, key, value) {
      LoweredHas(tx, labels, key, value);
    }
    forall value | Says(tx, labels, key, value) ensures value == found {
      LabelIsThePair(Lowered(tx, labels), key, value);
    }
  }

  // ---- what the labels ask for ----

  lemma {:induction false} NonBlankHas(tx: Text, texts: seq<string>, raw: string)
    ensures raw in NonBlank(tx, texts) <==> raw != "" && exists t :: t in texts && raw == tx.Strip(t)
  {
    if texts != [] {
      NonBlankHas(tx, texts[..|texts| - 1], raw);
      SplitLast(texts);
    }
  }

  lemma AffirmativeExactly(text: string)
    ensures Affirmative(text) <==> text in TRUE_VALUES
  {
  }

  lemma NothingIsNotAffirmative(tx: Text)
    requires tx.Lawful()
    ensures !Affirmative(tx.lower(tx.Strip("")))
  {
    assert tx.Strip("") == "" && tx.lower("") == AsciiLower("") == "";
  }

  lemma SwitchExactly(tx: Text, labels: Labels)
    requires tx.Lawful()
    ensures SwitchedOn(tx, labels) <==> tx.lower(tx.Strip(Label(Lowered(tx, labels), ENABLE_LABEL))) in TRUE_VALUES
  {
    var found := Label(Lowered(tx, labels), ENABLE_LABEL);
    NothingIsNotAffirmative(tx);
    AffirmativeExactly(tx.lower(tx.Strip(found)));
    LookupSays(tx, labels, ENABLE_LABEL);
  }

  lemma InEither(a: seq<string>, b: seq<string>, raw: string)
    ensures raw in a + b <==> raw in a || raw in b
  {
  }

  lemma OwnNamesExactly(tx: Text, labels: Labels, raw: string)
    requires tx.Lawful()
    ensures raw in OwnNames(tx, Lowered(tx, labels))
            <==> SwitchedOn(tx, labels) && raw != "" && (NamedAlone(tx, labels, raw) || Listed(tx, labels, raw))
  {
    var dict := Lowered(tx, labels);
    var alone, listed := NonBlank(tx, [Label(dict, DOMAIN_LABEL)]), NonBlank(tx, Split(Label(dict, DOMAINS_LABEL), ','));
    SwitchExactly(tx, labels);
    AloneExactly(tx, labels, raw);
    ListedExactly(tx, labels, raw);
    InEither(alone, listed, raw);
    OwnNamesAre(tx, dict);
  }

  lemma OwnNamesAre(tx: Text, dict: Labels)
    ensures OwnNames(tx, dict)
            == if tx.lower(tx.Strip(Label(dict, ENABLE_LABEL))) in TRUE_VALUES
               then NonBlank(tx, [Label(dict, DOMAIN_LABEL)]) + NonBlank(tx, Split(Label(dict, DOMAINS_LABEL), ','))
               else []
  {
  }

  lemma AloneExactly(tx: Text, labels: Labels, raw: string)
    ensures raw in NonBlank(tx, [Label(Lowered(tx, labels), DOMAIN_LABEL)]) <==> raw != "" && NamedAlone(tx, labels, raw)
  {
    LookupSays(tx, labels, DOMAIN_LABEL);
    NonBlankHas(tx, [Label(Lowered(tx, labels), DOMAIN_LABEL)], raw);
  }

  lemma ListedExactly(tx: Text, labels: Labels, raw: string)
    ensures raw in NonBlank(tx, Split(Label(Lowered(tx, labels), DOMAINS_LABEL), ',')) <==> raw != "" && Listed(tx, labels, raw)
  {
    var found := Label(Lowered(tx, labels), DOMAINS_LABEL);
    LookupSays(tx, labels, DOMAINS_LABEL);
    NonBlankHas(tx, Split(found, ','), raw);
  }

  // ---- rules among the labels ----

  lemma RuleKeyShape(key: string)
    ensures RuleKeyExactly(key) <==> RuleOf(key)
  {
    if RuleKeyExactly(key) {
      var router := key[|ROUTERS_PREFIX|..|key| - |RULE_SUFFIX|];
      assert key == ROUTERS_PREFIX + router + RULE_SUFFIX;
    }
    if router :| router != "" && '.' !in router && key == ROUTERS_PREFIX + router + RULE_SUFFIX {
      assert key[|ROUTERS_PREFIX|..|key| - |RULE_SUFFIX|] == router;
      assert key[|key| - |RULE_SUFFIX|..] == RULE_SUFFIX && key[..|ROUTERS_PREFIX|] == ROUTERS_PREFIX;
    }
  }

  function Unbroken(key: string): string { if key != "" && key[|key| - 1] == '\n' then key[..|key| - 1] else key }

  lemma IsRuleKeyShape(key: string)
    ensures IsRuleKey(key) <==> RuleKeyExactly(key) || RuleKeyExactly(Unbroken(key))
  {
  }

  lemma UnbrokenOf(key: string, plain: string)
    requires key == plain + "\n"
    ensures Unbroken(key) == plain
  {
    assert key[|key| - 1] == '\n' && key[..|key| - 1] == plain;
  }

  lemma RuleKeyIsRuleLabel(key: string)
    ensures IsRuleKey(key) <==> RuleLabel(key)
  {
    var plain := Unbroken(key);
    IsRuleKeyShape(key);
    RuleKeyShape(key);
    RuleKeyShape(plain);
    assert plain != key ==> key == plain + "\n";
    if other :| RuleOf(other) && key == other + "\n" {
      UnbrokenOf(key, other);
    }
  }

  lemma {:induction false} RuleNamesHave(tx: Text, dict: Labels, raw: string)
    ensures raw in RuleNames(tx, dict) <==> exists pair :: pair in dict && IsRuleKey(pair.0) && raw in HostsOf(tx, pair.1)
  {
    if dict != [] {
      RuleNamesHave(tx, dict[..|dict| - 1], raw);
      SplitLast(dict);
    }
  }

  lemma RuleNamesExactly(tx: Text, labels: Labels, raw: string)
    ensures raw in RuleNames(tx, Lowered(tx, labels)) <==> InARule(tx, labels, raw)
  {
    RuleNamesHave(tx, Lowered(tx, labels), raw);
    if pair :| pair in Lowered(tx, labels) && IsRuleKey(pair.0) && raw in HostsOf(tx, pair.1) {
      LoweredHas(tx, labels, pair.0, pair.1);
      RuleKeyIsRuleLabel(pair.0);
    }
    if key, rule :| RuleLabel(key) && Says(tx, labels, key, rule) && raw in HostsOf(tx, rule) {
      LoweredHas(tx, labels, key, rule);
      RuleKeyIsRuleLabel(key);
      assert (key, rule) in Lowered(tx, labels);
    }
  }

  lemma WantedExactly(tx: Text, labels: Labels, raw: string)
    requires tx.Lawful()
    ensures raw in WantedNames(tx, Lowered(tx, labels)) <==> Wants(tx, labels, raw)
  {
    var dict := Lowered(tx, labels);
    OwnNamesExactly(tx, labels, raw);
    RuleNamesExactly(tx, labels, raw);
    InEither(OwnNames(tx, dict), RuleNames(tx, dict), raw);
  }

  lemma AddressExactly(tx: Text, labels: Labels, address: string)
    ensures AddressOf(tx, Lowered(tx, labels)) == address <==> At(tx, labels, address)
  {
    LookupSays(tx, labels, ADDRESS_LABEL);
    assert tx.Strip("") == "";
  }

  // ---- containers ----

  /** The container's name without the slashes Docker puts before it, or the start of its id. */
  predicate Called(c: Container, who: string) {
    match c.name
    case Some(name) =>
      && |who| <= |name| && name[|name| - |who|..] == who && (who != "" ==> who[0] != '/')
      && forall i :: 0 <= i < |name| - |who| ==> name[i] == '/'
    case None => who <= c.id && (|who| == 12 || (|who| < 12 && who == c.id))
  }

  lemma {:induction false} SlashesGo(name: string)
    ensures var who := LStripSlashes(name);
            && |who| <= |name| && name[|name| - |who|..] == who && (who != "" ==> who[0] != '/')
            && forall i :: 0 <= i < |name| - |who| ==> name[i] == '/'
  {
    if name != "" && name[0] == '/' {
      var rest := name[1..];
      SlashesGo(rest);
      var who := LStripSlashes(rest);
      assert name[|name| - |who|..] == rest[|rest| - |who|..];
      assert forall i :: 0 < i < |name| ==> name[i] == rest[i - 1];
    }
  }

  lemma {:induction false} OnlyThoseSlashes(name: string, who: string)
    requires |who| <= |name| && name[|name| - |who|..] == who && (who != "" ==> who[0] != '/')
    requires forall i :: 0 <= i < |name| - |who| ==> name[i] == '/'
    ensures LStripSlashes(name) == who
  {
    if |who| < |name| {
      assert name[1..][|name[1..]| - |who|..] == who;
      OnlyThoseSlashes(name[1..], who);
    }
  }

  lemma NameIsCalled(c: Container, who: string)
    ensures ContainerName(c) == who <==> Called(c, who)
  {
    if c.name.Some? {
      SlashesGo(c.name.value);
      if Called(c, who) {
        OnlyThoseSlashes(c.name.value, who);
      }
    }
  }

  /** Container `c` asks for the raw name. */
  ghost predicate Mentions(tx: Text, c: Container, m: Mention) {
    Wants(tx, c.labels, m.raw) && At(tx, c.labels, m.address) && Called(c, m.who)
  }

  lemma OneContainerMentions(tx: Text, c: Container, m: Mention)
    requires tx.Lawful()
    ensures m in MentionsOf(WantedNames(tx, LabelsOf(tx, c)), ContainerName(c), AddressOf(tx, LabelsOf(tx, c)))
            <==> Mentions(tx, c, m)
  {
    MentionsOfNames(WantedNames(tx, LabelsOf(tx, c)), ContainerName(c), AddressOf(tx, LabelsOf(tx, c)), m);
    WantedExactly(tx, c.labels, m.raw);
    AddressExactly(tx, c.labels, m.address);
    NameIsCalled(c, m.who);
  }

  lemma {:induction false} ContainersMention(tx: Text, containers: seq<Container>, m: Mention)
    requires tx.Lawful()
    ensures m in ContainerMentions(tx, containers) <==> exists c :: c in containers && Mentions(tx, c, m)
  {
    if containers != [] {
      var n := |containers| - 1;
      ContainersMention(tx, containers[..n], m);
      OneContainerMentions(tx, containers[n], m);
      SplitLast(containers);
    }
  }

  ghost predicate Asking(tx: Text, c: Container, key: string) { exists raw :: Wants(tx, c.labels, raw) && Usable(tx, raw, key) }

  lemma AskingMentions(tx: Text, c: Container, raw: string) returns (m: Mention)
    requires Wants(tx, c.labels, raw)
    ensures m.raw == raw && m.who == ContainerName(c) && Mentions(tx, c, m)
  {
    m := Mention(raw, ContainerName(c), AddressOf(tx, LabelsOf(tx, c)));
    NameIsCalled(c, m.who);
    AddressExactly(tx, c.labels, m.address);
  }

  lemma AskingIsMentioned(tx: Text, containers: seq<Container>, c: Container, key: string) returns (m: Mention)
    requires tx.Lawful() && c in containers && Asking(tx, c, key)
    ensures m in ContainerMentions(tx, containers) && Usable(tx, m.raw, key) && m.who == ContainerName(c)
  {
    var raw :| Wants(tx, c.labels, raw) && Usable(tx, raw, key);
    m := AskingMentions(tx, c, raw);
    ContainersMention(tx, containers, m);
  }

  lemma MentionedIsAsking(tx: Text, containers: seq<Container>, m: Mention, key: string) returns (c: Container)
    requires tx.Lawful() && m in ContainerMentions(tx, containers) && Usable(tx, m.raw, key)
    ensures c in containers && Asking(tx, c, key) && Mentions(tx, c, m)
  {
    ContainersMention(tx, containers, m);
    c :| c in containers && Mentions(tx, c, m);
  }

  /** There is a record for a name if and only if the labels of some container ask for it. */
  lemma ContainersExactly(tx: Text, containers: seq<Container>, press: Press, key: string)
    requires tx.Lawful()
    ensures Has(Collect(tx, Docker, ContainerMentions(tx, containers), press).domains, key)
            <==> exists c :: c in containers && Asking(tx, c, key)
  {
    var mentions := ContainerMentions(tx, containers);
    MentionedExactly(tx, Docker, mentions, press, key);
    if m :| m in mentions && Usable(tx, m.raw, key) {
      var c := MentionedIsAsking(tx, containers, m, key);
    }
    if c :| c in containers && Asking(tx, c, key) {
      var m := AskingIsMentioned(tx, containers, c, key);
    }
  }

  /** `containers[i]` is the first that asks for the name. */
  ghost predicate AsksFirst(tx: Text, containers: seq<Container>, key: string, i: nat) {
    i < |containers| && Asking(tx, containers[i], key) && forall j :: 0 <= j < i ==> !Asking(tx, containers[j], key)
  }

  lemma NobodyAsks(tx: Text, containers: seq<Container>, key: string)
    requires tx.Lawful() && FirstMention(tx, ContainerMentions(tx, containers), key).None?
    ensures forall j :: 0 <= j < |containers| ==> !Asking(tx, containers[j], key)
  {
    FirstIsAMention(tx, ContainerMentions(tx, containers), key);
    forall j | 0 <= j < |containers| ensures !Asking(tx, containers[j], key) {
      if Asking(tx, containers[j], key) {
        var m := AskingIsMentioned(tx, containers, containers[j], key);
      }
    }
  }

  lemma OnlyContainer(tx: Text, c: Container)
    ensures ContainerMentions(tx, [c])
            == MentionsOf(WantedNames(tx, LabelsOf(tx, c)), ContainerName(c), AddressOf(tx, LabelsOf(tx, c)))
  {
    assert [c][..0] == [];
  }

  lemma LastContainer(tx: Text, containers: seq<Container>, key: string)
    requires containers != []
    ensures var n := |containers| - 1;
            var before := FirstMention(tx, ContainerMentions(tx, containers[..n]), key);
            FirstMention(tx, ContainerMentions(tx, containers), key)
            == if before.Some? then before else FirstMention(tx, ContainerMentions(tx, [containers[n]]), key)
  {
    var n := |containers| - 1;
    OnlyContainer(tx, containers[n]);
    FirstOfBoth(tx, ContainerMentions(tx, containers[..n]), ContainerMentions(tx, [containers[n]]), key);
  }

  lemma {:induction false} FirstPlace(tx: Text, containers: seq<Container>, key: string) returns (i: nat)
    requires FirstMention(tx, ContainerMentions(tx, containers), key).Some?
    ensures i < |containers| && FirstMention(tx, ContainerMentions(tx, containers[..i]), key).None?
    ensures FirstMention(tx, ContainerMentions(tx, [containers[i]]), key) == FirstMention(tx, ContainerMentions(tx, containers), key)
  {
    var n := |containers| - 1;
    LastContainer(tx, containers, key);
    if FirstMention(tx, ContainerMentions(tx, containers[..n]), key).Some? {
      i := FirstPlace(tx, containers[..n], key);
      PrefixOfPrefix(containers, n, i);
    } else {
      i := n;
    }
  }

  lemma NobodyBefore(tx: Text, containers: seq<Container>, key: string, i: nat)
    requires tx.Lawful() && i < |containers| && FirstMention(tx, ContainerMentions(tx, containers[..i]), key).None?
    ensures forall j :: 0 <= j < i ==> !Asking(tx, containers[j], key)
  {
    NobodyAsks(tx, containers[..i], key);
    forall j | 0 <= j < i ensures !Asking(tx, containers[j], key) {
      assert containers[j] == containers[..i][j];
    }
  }

  lemma FirstOfOne(tx: Text, c: Container, m: Mention, key: string)
    requires tx.Lawful() && FirstMention(tx, ContainerMentions(tx, [c]), key) == Some(m)
    ensures Asking(tx, c, key) && At(tx, c.labels, m.address) && Called(c, m.who)
  {
    FirstIsAMention(tx, ContainerMentions(tx, [c]), key);
    var c' := MentionedIsAsking(tx, [c], m, key);
  }

  lemma FirstContainer(tx: Text, containers: seq<Container>, key: string, m: Mention) returns (i: nat)
    requires tx.Lawful() && FirstMention(tx, ContainerMentions(tx, containers), key) == Some(m)
    ensures AsksFirst(tx, containers, key, i) && At(tx, containers[i].labels, m.address) && Called(containers[i], m.who)
  {
    i := FirstPlace(tx, containers, key);
    NobodyBefore(tx, containers, key, i);
    FirstOfOne(tx, containers[i], m, key);
  }

  /** The note names container `c`, if it asks. */
  lemma NoteNames(tx: Text, containers: seq<Container>, d: Domain, c: Container, who: string)
    requires tx.Lawful() && Tells(tx, Docker, ContainerMentions(tx, containers), d, d.name)
    requires c in containers && Asking(tx, c, d.name) && Called(c, who)
    ensures Occurs(who, d.note)
  {
    var m := AskingIsMentioned(tx, containers, c, d.name);
    NameIsCalled(c, who);
  }

  lemma RecordTells(tx: Text, mentions: seq<Mention>, press: Press, d: Domain) returns (first: Mention)
    requires tx.Lawful() && d in Collect(tx, Docker, mentions, press).domains
    ensures Tells(tx, Docker, mentions, d, d.name)
    ensures d.owner == "host:" + d.name && d.source == Docker && d.enabled && d.pinnedFields == []
    ensures FirstMention(tx, mentions, d.name) == Some(first) && first.address == d.address && first.who <= d.note
  {
    CollectedTell(tx, Docker, mentions, press);
    first := FirstMention(tx, mentions, d.name).value;
  }

  ghost predicate Begun(tx: Text, containers: seq<Container>, d: Domain, i: nat, who: string) {
    AsksFirst(tx, containers, d.name, i) && At(tx, containers[i].labels, d.address) && Called(containers[i], who) && who <= d.note
  }

  /** Each record is for one such name; its address is that of the first container to ask for it,
      whose name its note begins with, and its note names every container that asks. */
  lemma ContainerRecords(tx: Text, containers: seq<Container>, press: Press, d: Domain)
    requires tx.Lawful() && d in Collect(tx, Docker, ContainerMentions(tx, containers), press).domains
    ensures d.owner == "host:" + d.name && d.source == Docker && d.enabled && d.pinnedFields == []
    ensures forall c, who :: c in containers && Asking(tx, c, d.name) && Called(c, who) ==> Occurs(who, d.note)
    ensures exists i, who :: Begun(tx, containers, d, i, who)
  {
    var first := RecordTells(tx, ContainerMentions(tx, containers), press, d);
    var i := FirstContainer(tx, containers, d.name, first);
    assert Begun(tx, containers, d, i, first.who);
    forall c, who | c in containers && Asking(tx, c, d.name) && Called(c, who) ensures Occurs(who, d.note) {
      NoteNames(tx, containers, d, c, who);
    }
  }

  /** What the labels ask for and cannot be used is reported, and nothing else is. */
  lemma ContainersSkip(tx: Text, containers: seq<Container>, press: Press, raw: string)
    requires tx.Lawful()
    ensures raw in Collect(tx, Docker, ContainerMentions(tx, containers), press).invalid
            <==> !WellFormed(Normalise(tx, raw)) && exists c :: c in containers && Wants(tx, c.labels, raw)
  {
    var mentions := ContainerMentions(tx, containers);
    InvalidExactly(tx, Docker, mentions, press, raw);
    if m :| m in mentions && m.raw == raw && !WellFormed(Normalise(tx, raw)) {
      ContainersMention(tx, containers, m);
    }
    if c :| c in containers && Wants(tx, c.labels, raw) {
      var m := AskingMentions(tx, c, raw);
      ContainersMention(tx, containers, m);
    }
  }
}
