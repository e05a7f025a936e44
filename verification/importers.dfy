/** The two importers: Traefik's router list and Docker's container list become records. */
module Importers {
  import opened Prelude
  import opened Texts
  import opened Names
  import opened Model
  import opened Rules

  /** A host name somebody asked for: as written, who asked, and for which address. */
  datatype Mention = Mention(raw: string, who: string, address: string)

  /** Where new records get their ids and stamps: those of the k-th record made. */
  datatype Press = Press(id: nat -> string, created: nat -> string, updated: nat -> string)

  datatype Collection = Collection(domains: seq<Domain>, invalid: seq<string>)

  const NOTHING := Collection([], [])

  function OwnerOf(key: string): string { "host:" + key }

  function Contains(text: string, part: string): bool {
    part <= text || (text != "" && Contains(text[1..], part))
  }

  /** The note of a record that one more router or container mentions. */
  function Noted(source: Source, note: string, who: string): string {
    if Contains(note, who) then note
    else if source == Traefik && note == "" then who
    else note + ", " + who
  }

  function IndexOfOwner(domains: seq<Domain>, owner: string): (r: Option<nat>)
    ensures r.Some? ==> r.value < |domains| && domains[r.value].owner == owner
    ensures r.None? ==> forall d <- domains :: d.owner != owner
  {
    if domains == [] then None
    else
      var n := |domains| - 1;
      SplitLast(domains);
      match IndexOfOwner(domains[..n], owner)
      case Some(i) => Some(i)
      case None => if domains[n].owner == owner then Some(n) else None
  }

  function Made(source: Source, name: string, key: string, m: Mention, k: nat, press: Press): Domain {
    Domain(name, press.id(k), true, m.address, source, OwnerOf(key), [], m.who, press.created(k), press.updated(k))
  }

  /** One more mention of a valid name: a note on the record of that name, or a new record. */
  function Entered(source: Source, c: Collection, name: string, key: string, m: Mention, press: Press): Collection {
    match IndexOfOwner(c.domains, OwnerOf(key))
    case Some(i) => c.(domains := c.domains[i := c.domains[i].(note := Noted(source, c.domains[i].note, m.who))])
    case None => c.(domains := c.domains + [Made(source, name, key, m, |c.domains|, press)])
  }

  function Taken(tx: Text, source: Source, c: Collection, m: Mention, press: Press): Collection {
    var checked := Validate(tx, m.raw);
    if !checked.Ok() then c.(invalid := c.invalid + [m.raw])
    else Entered(source, c, checked.name, Normalise(tx, checked.name), m, press)
  }

  /** What a whole list of mentions comes to. */
  function Collect(tx: Text, source: Source, mentions: seq<Mention>, press: Press): Collection {
    if mentions == [] then NOTHING
    else Taken(tx, source, Collect(tx, source, mentions[..|mentions| - 1], press), mentions[|mentions| - 1], press)
  }

  function MentionsOf(names: seq<string>, who: string, address: string): (r: seq<Mention>)
    ensures |r| == |names| && forall i :: 0 <= i < |names| ==> r[i] == Mention(names[i], who, address)
  {
    seq(|names|, i requires 0 <= i < |names| => Mention(names[i], who, address))
  }

  // ---- Traefik's routers ----

  /** The owner and the rule of a router that counts. */
  function RouterOf(tx: Text, entry: Json): Option<(string, string)> {
    if !entry.JObject? then None
    else
      var f := entry.fields;
      if "status" in f && f["status"].JString? && tx.lower(f["status"].s) !in {"enabled", ""} then None
      else if "rule" !in f || !f["rule"].JString? then None
      else if "name" !in f || !f["name"].JString? || f["name"].s == "" then None
      else Some((f["name"].s, f["rule"].s))
  }

  function RouterMentions(tx: Text, routers: seq<Json>, address: string): seq<Mention> {
    if routers == [] then []
    else
      var before := RouterMentions(tx, routers[..|routers| - 1], address);
      match RouterOf(tx, routers[|routers| - 1])
      case Some((owner, rule)) => before + MentionsOf(HostsOf(tx, rule), owner, address)
      case None => before
  }

  function SkippedRegexps(tx: Text, routers: seq<Json>): seq<string> {
    if routers == [] then []
    else
      var before := SkippedRegexps(tx, routers[..|routers| - 1]);
      match RouterOf(tx, routers[|routers| - 1])
      case Some((_, rule)) => before + RegexpsOf(tx, rule)
      case None => before
  }

  // ---- Docker's containers ----

  /** One entry of the listing. `labels` are its pairs in the order Docker lists them, none if it
      lists no dictionary of them, with values as `str` renders them; `name` is the first name,
      if there is one and it is a string; `id` is what `str` renders, "None" where it is missing. */
  datatype Container = Container(labels: seq<(string, string)>, name: Option<string>, id: string)

  const ENABLE_LABEL := "hostbridge.enable"
  const DOMAIN_LABEL := "hostbridge.domain"
  const DOMAINS_LABEL := "hostbridge.domains"
  const ADDRESS_LABEL := "hostbridge.address"
  const TRUE_VALUES := {"1", "true", "yes", "on"}
  const ROUTERS_PREFIX := "traefik.http.routers."
  const RULE_SUFFIX := ".rule"

  /** Setting a key of an ordered dictionary. */
  function Put(labels: seq<(string, string)>, key: string, value: string): seq<(string, string)> {
    if labels == [] then [(key, value)]
    else if labels[0].0 == key then [(key, value)] + labels[1..]
    else [labels[0]] + Put(labels[1..], key, value)
  }

  function LabelsOf(tx: Text, c: Container): seq<(string, string)> { Lowered(tx, c.labels) }

  function Lowered(tx: Text, labels: seq<(string, string)>): seq<(string, string)> {
    if labels == [] then []
    else
      var last := labels[|labels| - 1];
      Put(Lowered(tx, labels[..|labels| - 1]), tx.lower(last.0), last.1)
  }

  function Label(labels: seq<(string, string)>, key: string): string {
    if labels == [] then "" else if labels[0].0 == key then labels[0].1 else Label(labels[1..], key)
  }

  /** One router's rule; a final line break does not count. */
  predicate IsRuleKey(key: string) {
    var k := if key != "" && key[|key| - 1] == '\n' then key[..|key| - 1] else key;
    RuleKeyExactly(key) || RuleKeyExactly(k)
  }

  predicate RuleKeyExactly(key: string) {
    |key| > |ROUTERS_PREFIX| + |RULE_SUFFIX| && ROUTERS_PREFIX <= key && key[|key| - |RULE_SUFFIX|..] == RULE_SUFFIX
    && '.' !in key[|ROUTERS_PREFIX|..|key| - |RULE_SUFFIX|]
  }

  function NonBlank(tx: Text, texts: seq<string>): seq<string> {
    if texts == [] then []
    else NonBlank(tx, texts[..|texts| - 1])
         + if tx.Strip(texts[|texts| - 1]) != "" then [tx.Strip(texts[|texts| - 1])] else []
  }

  function OwnNames(tx: Text, labels: seq<(string, string)>): seq<string> {
    if tx.lower(tx.Strip(Label(labels, ENABLE_LABEL))) !in TRUE_VALUES then []
    else NonBlank(tx, [Label(labels, DOMAIN_LABEL)]) + NonBlank(tx, Split(Label(labels, DOMAINS_LABEL), ','))
  }

  function RuleNames(tx: Text, labels: seq<(string, string)>): seq<string> {
    if labels == [] then []
    else
      var last := labels[|labels| - 1];
      RuleNames(tx, labels[..|labels| - 1]) + if IsRuleKey(last.0) then HostsOf(tx, last.1) else []
  }

  function WantedNames(tx: Text, labels: seq<(string, string)>): seq<string> {
    Dedup(OwnNames(tx, labels) + RuleNames(tx, labels))
  }

  function LStripSlashes(s: string): string { if s != "" && s[0] == '/' then LStripSlashes(s[1..]) else s }

  function ContainerName(c: Container): string {
    match c.name
    case Some(name) => LStripSlashes(name)
    case None => if |c.id| <= 12 then c.id else c.id[..12]
  }

  function AddressOf(tx: Text, labels: seq<(string, string)>): string {
    OrElse(tx.Strip(Label(labels, ADDRESS_LABEL)), DEFAULT_ADDRESS)
  }

  function ContainerMentions(tx: Text, containers: seq<Container>): seq<Mention> {
    if containers == [] then []
    else
      var last := containers[|containers| - 1];
      var labels := LabelsOf(tx, last);
      ContainerMentions(tx, containers[..|containers| - 1])
      + MentionsOf(WantedNames(tx, labels), ContainerName(last), AddressOf(tx, labels))
  }

  // ---- as they run ----

  ghost predicate SeenAt(seen: map<string, nat>, d: Domain, i: nat) {
    |d.owner| >= 5 && d.owner == OwnerOf(d.owner[5..]) && d.owner[5..] in seen && seen[d.owner[5..]] == i
  }

  /** The `seen` dictionary points at the record made for each key. */
  ghost predicate Sees(seen: map<string, nat>, domains: seq<Domain>) {
    && (forall key <- seen :: seen[key] < |domains| && domains[seen[key]].owner == OwnerOf(key))
    && (forall i :: 0 <= i < |domains| ==> SeenAt(seen, domains[i], i))
  }

  lemma OwnersAreInjective(a: string, b: string)
    requires OwnerOf(a) == OwnerOf(b)
    ensures a == b
  {
    assert OwnerOf(a)[5..] == a && OwnerOf(b)[5..] == b;
  }

  /** The dictionary finds exactly what a search by owner finds. */
  lemma SeenIsOwned(seen: map<string, nat>, domains: seq<Domain>, key: string)
    requires Sees(seen, domains)
    ensures IndexOfOwner(domains, OwnerOf(key)) == if key in seen then Some(seen[key]) else None
  {
    assert key in seen ==> domains[seen[key]] in domains;
    var found := IndexOfOwner(domains, OwnerOf(key));
    if found.Some? {
      assert SeenAt(seen, domains[found.value], found.value);
      OwnersAreInjective(domains[found.value].owner[5..], key);
    }
  }

  lemma SeenGrows(seen: map<string, nat>, domains: seq<Domain>, key: string, d: Domain)
    requires Sees(seen, domains) && key !in seen && d.owner == OwnerOf(key)
    ensures Sees(seen[key := |domains|], domains + [d])
  {
    assert d.owner[5..] == key;
  }

  /** A valid mention, by way of the dictionary. */
  method Enter(source: Source, domains: seq<Domain>, seen: map<string, nat>, name: string, key: string, m: Mention, press: Press)
    returns (domains': seq<Domain>, seen': map<string, nat>)
    requires Sees(seen, domains)
    ensures Sees(seen', domains')
    ensures forall invalid :: Collection(domains', invalid) == Entered(source, Collection(domains, invalid), name, key, m, press)
  {
    SeenIsOwned(seen, domains, key);
    seen' := seen;
    if key in seen {
      var i := seen[key];
      domains' := domains[i := domains[i].(note := Noted(source, domains[i].note, m.who))];
    } else {
      var domain := Made(source, name, key, m, |domains|, press);
      SeenGrows(seen, domains, key, domain);
      seen' := seen[key := |domains|];
      domains' := domains + [domain];
    }
  }

  lemma CollectOne(tx: Text, source: Source, mentions: seq<Mention>, m: Mention, press: Press)
    ensures Collect(tx, source, mentions + [m], press) == Taken(tx, source, Collect(tx, source, mentions, press), m, press)
  {
    assert (mentions + [m])[..|mentions|] == mentions;
  }

  /** One name, after the mentions `before`. */
  method Take(tx: Text, source: Source, domains: seq<Domain>, seen: map<string, nat>, invalid: seq<string>, m: Mention,
              press: Press, ghost before: seq<Mention>)
    returns (domains': seq<Domain>, seen': map<string, nat>, invalid': seq<string>)
    requires Sees(seen, domains) && Collection(domains, invalid) == Collect(tx, source, before, press)
    ensures Sees(seen', domains') && Collection(domains', invalid') == Collect(tx, source, before + [m], press)
  {
    domains', seen', invalid' := domains, seen, invalid;
    CollectOne(tx, source, before, m, press);
    var checked := Validate(tx, m.raw);
    if !checked.Ok() {
      invalid' := invalid + [m.raw];
    } else {
      domains', seen' := Enter(source, domains, seen, checked.name, Normalise(tx, checked.name), m, press);
    }
  }

  lemma MentionStep(before: seq<Mention>, all: seq<Mention>, i: nat)
    requires i < |all|
    ensures before + all[..i + 1] == (before + all[..i]) + [all[i]]
  {
  }

  /** The names of one router or container. */
  method TakeAll(tx: Text, source: Source, domains: seq<Domain>, seen: map<string, nat>, invalid: seq<string>,
                 names: seq<string>, who: string, address: string, press: Press, ghost before: seq<Mention>)
    returns (domains': seq<Domain>, seen': map<string, nat>, invalid': seq<string>)
    requires Sees(seen, domains) && Collection(domains, invalid) == Collect(tx, source, before, press)
    ensures Sees(seen', domains')
    ensures Collection(domains', invalid') == Collect(tx, source, before + MentionsOf(names, who, address), press)
  {
    domains', seen', invalid' := domains, seen, invalid;
    ghost var all := MentionsOf(names, who, address);
    ghost var sofar := before;
    assert before + all[..0] == before;
    for i := 0 to |names|
      invariant sofar == before + all[..i]
      invariant Sees(seen', domains') && Collection(domains', invalid') == Collect(tx, source, sofar, press)
    {
      domains', seen', invalid' := Take(tx, source, domains', seen', invalid', Mention(names[i], who, address), press, sofar);
      MentionStep(before, all, i);
      sofar := sofar + [all[i]];
    }
    WholePrefix(all);
  }

  method RoutersToDomains(tx: Text, routers: seq<Json>, address: string, press: Press)
    returns (domains: seq<Domain>, skippedRegexp: seq<string>, skippedInvalid: seq<string>)
    ensures Collection(domains, skippedInvalid) == Collect(tx, Traefik, RouterMentions(tx, routers, address), press)
    ensures skippedRegexp == SkippedRegexps(tx, routers)
  {
    domains, skippedRegexp, skippedInvalid := [], [], [];
    var seen: map<string, nat> := map[];
    for i := 0 to |routers|
      invariant Sees(seen, domains)
      invariant Collection(domains, skippedInvalid) == Collect(tx, Traefik, RouterMentions(tx, routers[..i], address), press)
      invariant skippedRegexp == SkippedRegexps(tx, routers[..i])
    {
      PrefixOfPrefix(routers, i + 1, i);
      var router := RouterOf(tx, routers[i]);
      if router.None? {
        continue;
      }
      var (owner, rule) := router.value;
      var regexps := RegexpPredicates(tx, rule);
      skippedRegexp := skippedRegexp + regexps;
      var names := ParseRule(tx, rule);
      domains, seen, skippedInvalid := TakeAll(tx, Traefik, domains, seen, skippedInvalid, names, owner, address, press,
                                               RouterMentions(tx, routers[..i], address));
    }
    WholePrefix(routers);
  }

  method OwnNamesFrom(tx: Text, labels: seq<(string, string)>) returns (found: seq<string>)
    ensures found == OwnNames(tx, labels)
  {
    found := [];
    if tx.lower(tx.Strip(Label(labels, ENABLE_LABEL))) in TRUE_VALUES {
      var single := tx.Strip(Label(labels, DOMAIN_LABEL));
      ghost var one := [Label(labels, DOMAIN_LABEL)];
      assert one[..0] == [];
      if single != "" {
        found := found + [single];
      }
      assert found == NonBlank(tx, one);
      var parts := Split(Label(labels, DOMAINS_LABEL), ',');
      ghost var first := found;
      for i := 0 to |parts|
        invariant found == first + NonBlank(tx, parts[..i])
      {
        PrefixOfPrefix(parts, i + 1, i);
        if tx.Strip(parts[i]) != "" {
          found := found + [tx.Strip(parts[i])];
        }
      }
      WholePrefix(parts);
    }
  }

  method RuleNamesFrom(tx: Text, labels: seq<(string, string)>) returns (found: seq<string>)
    ensures found == RuleNames(tx, labels)
  {
    found := [];
    for i := 0 to |labels|
      invariant found == RuleNames(tx, labels[..i])
    {
      PrefixOfPrefix(labels, i + 1, i);
      if IsRuleKey(labels[i].0) {
        var names := ParseRule(tx, labels[i].1);
        found := found + names;
      }
    }
    WholePrefix(labels);
  }

  /** `wanted_names` */
  method NamesFromLabels(tx: Text, labels: seq<(string, string)>) returns (ordered: seq<string>)
    ensures ordered == WantedNames(tx, labels)
  {
    var own := OwnNamesFrom(tx, labels);
    var ruled := RuleNamesFrom(tx, labels);
    ordered := AddNew([], own + ruled, []);
    assert [] + (own + ruled) == own + ruled;
  }

  method ContainersToDomains(tx: Text, containers: seq<Container>, press: Press)
    returns (domains: seq<Domain>, skippedInvalid: seq<string>)
    ensures Collection(domains, skippedInvalid) == Collect(tx, Docker, ContainerMentions(tx, containers), press)
  {
    domains, skippedInvalid := [], [];
    var seen: map<string, nat> := map[];
    for i := 0 to |containers|
      invariant Sees(seen, domains)
      invariant Collection(domains, skippedInvalid) == Collect(tx, Docker, ContainerMentions(tx, containers[..i]), press)
    {
      PrefixOfPrefix(containers, i + 1, i);
      var labels := LabelsOf(tx, containers[i]);
      var names := NamesFromLabels(tx, labels);
      domains, seen, skippedInvalid := TakeAll(tx, Docker, domains, seen, skippedInvalid, names, ContainerName(containers[i]),
                                               AddressOf(tx, labels), press, ContainerMentions(tx, containers[..i]));
    }
    WholePrefix(containers);
  }
}
