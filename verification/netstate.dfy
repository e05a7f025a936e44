/** The record of what was changed, written before it is changed. */
module NetStates {
  import opened Prelude
  import opened Model
  import opened Nrpt

  const NETSTATE_VERSION := 1

  datatype NetState = NetState(
    version: int,
    appVersion: string,
    pid: int,
    startedAt: string,
    platform: string,
    mechanism: string,
    listen: seq<string>,
    port: int,
    upstreams: seq<string>,
    intent: seq<Namespace>,
    confirmed: seq<Namespace>,
    links: seq<string>,
    cleanShutdown: bool)

  const DEFAULT := NetState(NETSTATE_VERSION, "", 0, "", "", "", [], 53, [], [], [], [], false)

  /** `asdict`, as it is written. */
  function ToJson(s: NetState): Json {
    JObject(map[
      "version" := JNumber(s.version), "app_version" := JString(s.appVersion), "pid" := JNumber(s.pid),
      "started_at" := JString(s.startedAt), "platform" := JString(s.platform), "mechanism" := JString(s.mechanism),
      "listen" := JList(TextList(s.listen)), "port" := JNumber(s.port), "upstreams" := JList(TextList(s.upstreams)),
      "intent" := JList(TextList(s.intent)), "confirmed" := JList(TextList(s.confirmed)),
      "links" := JList(TextList(s.links)), "clean_shutdown" := JBool(s.cleanShutdown)])
  }

  function NumberField(fields: map<string, Json>, key: string, fallback: int): int {
    if key in fields && fields[key].JNumber? then fields[key].n else fallback
  }

  function StringsField(fields: map<string, Json>, key: string): seq<string> {
    if key in fields && fields[key].JList? then Strings(fields[key].items) else []
  }

  /** `None` when there is nothing usable, which includes a file from a newer build. */
  function FromJson(raw: Json): Option<NetState> {
    if !raw.JObject? then None
    else
      var f := raw.fields;
      if "version" !in f || !f["version"].JNumber? || f["version"].n > NETSTATE_VERSION then None
      else
        Some(NetState(
          f["version"].n, TextField(f, "app_version"), NumberField(f, "pid", 0), TextField(f, "started_at"),
          TextField(f, "platform"), TextField(f, "mechanism"), StringsField(f, "listen"),
          NumberField(f, "port", 53), StringsField(f, "upstreams"), StringsField(f, "intent"),
          StringsField(f, "confirmed"), StringsField(f, "links"),
          "clean_shutdown" in f && Truthy(f["clean_shutdown"])))
  }

  lemma NumbersReadBack(s: NetState)
    ensures var f := ToJson(s).fields;
            && f["version"] == JNumber(s.version) && NumberField(f, "pid", 0) == s.pid
            && NumberField(f, "port", 53) == s.port && f["clean_shutdown"] == JBool(s.cleanShutdown)
  {
  }

  lemma TextsReadBack(s: NetState)
    ensures var f := ToJson(s).fields;
            && TextField(f, "app_version") == s.appVersion && TextField(f, "started_at") == s.startedAt
            && TextField(f, "platform") == s.platform && TextField(f, "mechanism") == s.mechanism
  {
    var f := ToJson(s).fields;
    assert f["app_version"] == JString(s.appVersion) && f["started_at"] == JString(s.startedAt);
    assert f["platform"] == JString(s.platform) && f["mechanism"] == JString(s.mechanism);
  }

  lemma ListsReadBack(s: NetState)
    ensures var f := ToJson(s).fields;
            && StringsField(f, "listen") == s.listen && StringsField(f, "upstreams") == s.upstreams
            && StringsField(f, "intent") == s.intent && StringsField(f, "confirmed") == s.confirmed
            && StringsField(f, "links") == s.links
  {
    var f := ToJson(s).fields;
    assert f["listen"] == JList(TextList(s.listen)) && f["upstreams"] == JList(TextList(s.upstreams));
    assert f["intent"] == JList(TextList(s.intent)) && f["confirmed"] == JList(TextList(s.confirmed));
    assert f["links"] == JList(TextList(s.links));
    StringsRoundTrip(s.listen);
    StringsRoundTrip(s.upstreams);
    StringsRoundTrip(s.intent);
    StringsRoundTrip(s.confirmed);
    StringsRoundTrip(s.links);
  }

  /** What is written is what is read back, unless a newer build wrote it. */
  lemma RecordReadsBack(s: NetState)
    ensures FromJson(ToJson(s)) == if s.version <= NETSTATE_VERSION then Some(s) else None
  {
    NumbersReadBack(s);
    TextsReadBack(s);
    ListsReadBack(s);
  }

  /** A record without a version, or of a newer one, is none; one with nothing else reads as the defaults. */
  lemma SparseRecordReads(fields: map<string, Json>, version: int)
    ensures "version" !in fields ==> FromJson(JObject(fields)).None?
    ensures FromJson(JObject(map["version" := JNumber(version)]))
            == if version > 1 then None
               else Some(NetState(version, "", 0, "", "", "", [], 53, [], [], [], [], false))
  {
    var f: map<string, Json> := map["version" := JNumber(version)];
    assert f.Keys == {"version"};
  }
}
