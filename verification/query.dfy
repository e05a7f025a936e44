/** The decision about one query: answer it here, or forward it. */
module Queries {
  import opened Prelude
  import opened Texts
  import opened Names
  import opened Model
  import opened Wire
  import opened Zones
  import Cache

  const OPCODE_QUERY := 0
  const CLASS_IN := 1
  const QTYPE_A := 1
  const QTYPE_AAAA := 28

  datatype Question = Question(qname: string, qtype: nat, qclass: nat)

  datatype Message = Message(opcode: nat, questions: seq<Question>, dnssecOk: bool)

  /** What decisions need from the message parser (`None` is any parse error), from the
      address parser and from the scan of an answer's lifetimes. */
  datatype Dns = Dns(parse: bytes -> Option<Message>, minTtl: bytes -> int, isIpv6: string -> bool) {
    /** The id is no part of the question. */
    ghost predicate Lawful() { forall payload, id :: parse(WithTxid(payload, id)) == parse(payload) }
  }

  /** A reply: one we compose, or the bytes of an upstream answer. */
  datatype Reply =
    | FormErr | NotImplemented | Refused | ServFail
    | Address(address: string, ttl: int)
    | NoData(apex: string, ttl: int, serial: int)
    | Bytes(payload: bytes)

  datatype Action = Local(reply: Reply) | Forward(key: Cache.Key, id: nat)

  function KeyOf(tx: Text, m: Message): Cache.Key
    requires |m.questions| == 1
  {
    Cache.Key(Normalise(tx, m.questions[0].qname), m.questions[0].qtype, m.questions[0].qclass, m.dnssecOk)
  }

  function FromMatch(dns: Dns, found: Match, qtype: nat, ttl: int, serial: int): Reply {
    if qtype in {QTYPE_A, QTYPE_AAAA} && (qtype == QTYPE_AAAA) == dns.isIpv6(found.address)
    then Address(found.address, ttl)
    else NoData(found.apex, ttl, serial)
  }

  /** The serial of a zone, or 1 for the zone that has none. */
  function SerialOf(zone: Zone): int { if zone.serial == 0 then 1 else zone.serial }

  function Decide(tx: Text, dns: Dns, payload: bytes, zone: Zone, slots: seq<Cache.Slot>, now: real, ttl: int): Action {
    match dns.parse(payload)
    case None => Local(FormErr)
    case Some(m) =>
      if m.opcode != OPCODE_QUERY then Local(NotImplemented)
      else if |m.questions| != 1 then Local(FormErr)
      else if m.questions[0].qclass != CLASS_IN then Local(Refused)
      else
        match MatchName(tx, zone, m.questions[0].qname)
        case Some(found) => Local(FromMatch(dns, found, m.questions[0].qtype, ttl, SerialOf(zone)))
        case None =>
          match Cache.Answer(slots, KeyOf(tx, m), Txid(payload), now)
          case Some(cached) => Local(Bytes(cached))
          case None => Forward(KeyOf(tx, m), Txid(payload))
  }

  /** A query this resolver handles at all: one question of class IN. */
  predicate Proper(dns: Dns, payload: bytes) {
    var m := dns.parse(payload);
    m.Some? && m.value.opcode == OPCODE_QUERY && |m.value.questions| == 1 && m.value.questions[0].qclass == CLASS_IN
  }

  predicate Matched(tx: Text, dns: Dns, payload: bytes, zone: Zone) {
    Proper(dns, payload) && MatchName(tx, zone, dns.parse(payload).value.questions[0].qname).Some?
  }

  /** The cache key of a proper query. */
  function QueryKey(tx: Text, dns: Dns, payload: bytes): Cache.Key
    requires Proper(dns, payload)
  {
    KeyOf(tx, dns.parse(payload).value)
  }

  /** Two queries ask the same: one name, however it is spelled, one type, one class and one DO bit. */
  predicate SameQuestion(tx: Text, dns: Dns, a: bytes, b: bytes)
    requires Proper(dns, a) && Proper(dns, b)
  {
    var m, n := dns.parse(a).value, dns.parse(b).value;
    && Normalise(tx, m.questions[0].qname) == Normalise(tx, n.questions[0].qname)
    && m.questions[0].qtype == n.questions[0].qtype && m.questions[0].qclass == n.questions[0].qclass
    && m.dnssecOk == n.dnssecOk
  }

  /** Two queries have one cache key, and share one flight, if and only if they ask the same. */
  lemma SameKeyExactly(tx: Text, dns: Dns, a: bytes, b: bytes)
    requires Proper(dns, a) && Proper(dns, b)
    ensures QueryKey(tx, dns, a) == QueryKey(tx, dns, b) <==> SameQuestion(tx, dns, a, b)
  {
  }

  predicate Consults(tx: Text, dns: Dns, payload: bytes, zone: Zone) {
    Proper(dns, payload) && !Matched(tx, dns, payload, zone)
  }

  /** A decision is to forward exactly when the query is proper, its name is not ours and the
      cache has no live answer; the key says what was asked. */
  lemma ForwardsExactly(tx: Text, dns: Dns, payload: bytes, zone: Zone, slots: seq<Cache.Slot>, now: real, ttl: int)
    ensures Decide(tx, dns, payload, zone, slots, now, ttl).Forward? <==>
            Consults(tx, dns, payload, zone)
            && Cache.Answer(slots, QueryKey(tx, dns, payload), Txid(payload), now).None?
    ensures Decide(tx, dns, payload, zone, slots, now, ttl).Forward? ==>
            Decide(tx, dns, payload, zone, slots, now, ttl) == Forward(QueryKey(tx, dns, payload), Txid(payload))
    ensures var action := Decide(tx, dns, payload, zone, slots, now, ttl);
            action.Local? && action.reply.Bytes? ==> Consults(tx, dns, payload, zone)
  {
  }

  /** Which message is refused, and how: what cannot be parsed or has not exactly one question is a
      format error, but another operation is not implemented first; another class is refused. */
  lemma RefusalsExactly(tx: Text, dns: Dns, payload: bytes, zone: Zone, slots: seq<Cache.Slot>, now: real, ttl: int)
    ensures var action := Decide(tx, dns, payload, zone, slots, now, ttl);
            var m := dns.parse(payload);
            && (action == Local(FormErr) <==> m.None? || (m.value.opcode == 0 && |m.value.questions| != 1))
            && (action == Local(NotImplemented) <==> m.Some? && m.value.opcode != 0)
            && (action == Local(Refused) <==>
                  m.Some? && m.value.opcode == 0 && |m.value.questions| == 1 && m.value.questions[0].qclass != 1)
            && action != Local(ServFail)
  {
  }

  /** Once a name is ours no query for it leaves the machine or reads the cache, whatever its
      type: the reply is the address if its family was asked for, and otherwise no data. */
  lemma OursNeverForwarded(tx: Text, dns: Dns, payload: bytes, zone: Zone, slots: seq<Cache.Slot>, now: real, ttl: int)
    requires Matched(tx, dns, payload, zone)
    ensures var q := dns.parse(payload).value.questions[0];
            var found := MatchName(tx, zone, q.qname).value;
            var action := Decide(tx, dns, payload, zone, slots, now, ttl);
            && action.Local? && (action.reply.Address? || action.reply.NoData?)
            && (action.reply.Address? <==>
                  (q.qtype == QTYPE_A && !dns.isIpv6(found.address)) || (q.qtype == QTYPE_AAAA && dns.isIpv6(found.address)))
            && (action.reply.Address? ==> action.reply == Address(found.address, ttl))
            && (action.reply.NoData? ==>
                  action.reply == NoData(found.apex, ttl, if zone.serial == 0 then 1 else zone.serial))
            && forall other, later :: Decide(tx, dns, payload, zone, other, later, ttl) == action
  {
  }

  lemma MatchDecides(tx: Text, dns: Dns, payload: bytes, zone: Zone, slots: seq<Cache.Slot>, now: real, ttl: int)
    requires Proper(dns, payload)
    ensures var found := MatchName(tx, zone, dns.parse(payload).value.questions[0].qname);
            var action := Decide(tx, dns, payload, zone, slots, now, ttl);
            && ((action.Local? && !action.reply.Bytes?) <==> found.Some?)
            && (action.Local? && action.reply.Address? ==> found.Some? && found.value.address == action.reply.address)
  {
  }

  /** For validated records: a proper query is answered from the zone exactly when one of the
      registered namespaces covers its name, and then with the address of the match ladder. */
  lemma CoveredIsOurs(tx: Text, dns: Dns, payload: bytes, domains: seq<Domain>, serial: int,
                      slots: seq<Cache.Slot>, now: real, ttl: int)
    requires tx.Lawful() && AllValid(tx, domains) && Proper(dns, payload)
    ensures var zone := Compile(tx, domains, serial);
            var name := Normalise(tx, dns.parse(payload).value.questions[0].qname);
            var action := Decide(tx, dns, payload, zone, slots, now, ttl);
            && ((action.Local? && !action.reply.Bytes?)
                <==> name != "" && exists ns :: ns in Namespaces(zone) && Covers(ns, name))
            && (action.Local? && action.reply.Address? ==>
                  exists m :: LadderAnswer(tx, domains, name, m) && m.address == action.reply.address)
  {
    var zone := Compile(tx, domains, serial);
    var qname := dns.parse(payload).value.questions[0].qname;
    MatchDecides(tx, dns, payload, zone, slots, now, ttl);
    var action := Decide(tx, dns, payload, zone, slots, now, ttl);
    CoveredOnly(tx, domains, serial, qname, action);
  }

  lemma CoveredOnly(tx: Text, domains: seq<Domain>, serial: int, qname: string, action: Action)
    requires tx.Lawful() && AllValid(tx, domains)
    requires var found := MatchName(tx, Compile(tx, domains, serial), qname);
             && ((action.Local? && !action.reply.Bytes?) <==> found.Some?)
             && (action.Local? && action.reply.Address? ==> found.Some? && found.value.address == action.reply.address)
    ensures var zone := Compile(tx, domains, serial);
            var name := Normalise(tx, qname);
            && ((action.Local? && !action.reply.Bytes?)
                <==> name != "" && exists ns :: ns in Namespaces(zone) && Covers(ns, name))
            && (action.Local? && action.reply.Address? ==>
                  exists m :: LadderAnswer(tx, domains, name, m) && m.address == action.reply.address)
  {
    AnsweredIffCovered(tx, domains, serial, qname);
    var found := MatchName(tx, Compile(tx, domains, serial), qname);
    if found.Some? {
      MatchIsTheLadder(tx, domains, serial, qname, found.value);
    }
  }
}
