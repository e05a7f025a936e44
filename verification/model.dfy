/** The domain record and its serialised form. */
module Model {
  import opened Prelude
  import opened Texts

  datatype Source = Manual | Docker | Traefik

  const DEFAULT_ADDRESS := "127.0.0.1"

  datatype Domain = Domain(
    name: string,
    id: string,
    enabled: bool,
    address: string,
    source: Source,
    owner: string,
    pinnedFields: seq<string>,
    note: string,
    createdAt: string,
    updatedAt: string)

  /** A parsed JSON value. */
  datatype Json =
    | JNull | JBool(b: bool) | JNumber(n: int) | JString(s: string)
    | JList(items: seq<Json>) | JObject(fields: map<string, Json>)

  function SourceText(source: Source): string {
    match source
    case Manual => "manual"
    case Docker => "docker"
    case Traefik => "traefik"
  }

  function TextList(texts: seq<string>): (items: seq<Json>)
    ensures |items| == |texts| && forall i :: 0 <= i < |texts| ==> items[i] == JString(texts[i])
  {
    if texts == [] then [] else [JString(texts[0])] + TextList(texts[1..])
  }

  function ToDict(d: Domain): Json {
    JObject(map[
      "name" := JString(d.name),
      "id" := JString(d.id),
      "enabled" := JBool(d.enabled),
      "address" := JString(d.address),
      "source" := JString(SourceText(d.source)),
      "owner" := JString(d.owner),
      "pinned_fields" := JList(TextList(d.pinnedFields)),
      "note" := JString(d.note),
      "created_at" := JString(d.createdAt),
      "updated_at" := JString(d.updatedAt)])
  }

  /** `raw.get(key)` where it is a string, else the empty string. */
  function TextField(fields: map<string, Json>, key: string): string {
    if key in fields && fields[key].JString? then fields[key].s else ""
  }

  function OrElse(text: string, fallback: string): string {
    if text == "" then fallback else text
  }

  function Truthy(value: Json): bool {
    match value
    case JNull => false
    case JBool(b) => b
    case JNumber(n) => n != 0
    case JString(s) => s != ""
    case JList(items) => items != []
    case JObject(fields) => fields != map[]
  }

  function SourceField(fields: map<string, Json>): Source {
    var text := TextField(fields, "source");
    if text == "docker" then Docker else if text == "traefik" then Traefik else Manual
  }

  function Strings(items: seq<Json>): seq<string> {
    if items == [] then []
    else (if items[0].JString? then [items[0].s] else []) + Strings(items[1..])
  }

  function PinnedField(fields: map<string, Json>): seq<string> {
    if "pinned_fields" in fields && fields["pinned_fields"].JList? then Strings(fields["pinned_fields"].items) else []
  }

  /** One stored entry; `None` when it is unusable. `freshId` and `now` stand for the id
      generator and the clock, which are consulted only for what the entry lacks. */
  function FromDict(tx: Text, raw: Json, freshId: string, now: string): Option<Domain> {
    if !raw.JObject? then None
    else
      var fields := raw.fields;
      var name := tx.Strip(TextField(fields, "name"));
      if name == "" then None
      else
        var created := OrElse(TextField(fields, "created_at"), now);
        Some(Domain(
          name,
          OrElse(TextField(fields, "id"), freshId),
          "enabled" !in fields || Truthy(fields["enabled"]),
          OrElse(TextField(fields, "address"), DEFAULT_ADDRESS),
          SourceField(fields),
          TextField(fields, "owner"),
          PinnedField(fields),
          TextField(fields, "note"),
          created,
          OrElse(TextField(fields, "updated_at"), created)))
  }

  /** The records the file can hold without losing or altering anything. */
  predicate Storable(tx: Text, d: Domain) {
    d.name != "" && tx.Strip(d.name) == d.name
    && d.id != "" && d.address != "" && d.createdAt != "" && d.updatedAt != ""
  }

  lemma {:induction false} StringsRoundTrip(texts: seq<string>)
    ensures Strings(TextList(texts)) == texts
  {
    if texts != [] {
      StringsRoundTrip(texts[1..]);
      assert TextList(texts)[1..] == TextList(texts[1..]);
    }
  }

  /** What each field of a written record reads back as. */
  lemma FieldsReadBack(d: Domain)
    ensures var fields := ToDict(d).fields;
            && TextField(fields, "name") == d.name && TextField(fields, "id") == d.id
            && TextField(fields, "address") == d.address && TextField(fields, "owner") == d.owner
            && TextField(fields, "note") == d.note && TextField(fields, "created_at") == d.createdAt
            && TextField(fields, "updated_at") == d.updatedAt && SourceField(fields) == d.source
    ensures var fields := ToDict(d).fields;
            "enabled" in fields && Truthy(fields["enabled"]) == d.enabled && PinnedField(fields) == d.pinnedFields
  {
    TextsWritten(d);
    OthersWritten(d);
    StringsRoundTrip(d.pinnedFields);
  }

  lemma TextsWritten(d: Domain)
    ensures var f := ToDict(d).fields;
            && "name" in f && "id" in f && "address" in f && "owner" in f && "note" in f && "created_at" in f && "updated_at" in f
            && f["name"] == JString(d.name) && f["id"] == JString(d.id) && f["address"] == JString(d.address)
            && f["owner"] == JString(d.owner) && f["note"] == JString(d.note)
            && f["created_at"] == JString(d.createdAt) && f["updated_at"] == JString(d.updatedAt)
  {
  }

  lemma OthersWritten(d: Domain)
    ensures var f := ToDict(d).fields;
            && "enabled" in f && "source" in f && "pinned_fields" in f
            && f["enabled"] == JBool(d.enabled) && f["source"] == JString(SourceText(d.source))
            && f["pinned_fields"] == JList(TextList(d.pinnedFields))
  {
  }

  /** The dictionary of a record has these ten keys, each with the field it is named for. */
  lemma DictCarries(d: Domain)
    ensures ToDict(d).JObject? && ToDict(d).fields.Keys
            == {"name", "id", "enabled", "address", "source", "owner", "pinned_fields", "note", "created_at", "updated_at"}
    ensures var f := ToDict(d).fields;
            && f["name"] == JString(d.name) && f["id"] == JString(d.id) && f["enabled"] == JBool(d.enabled)
            && f["address"] == JString(d.address) && f["owner"] == JString(d.owner) && f["note"] == JString(d.note)
            && f["created_at"] == JString(d.createdAt) && f["updated_at"] == JString(d.updatedAt)
            && f["pinned_fields"].JList? && |f["pinned_fields"].items| == |d.pinnedFields|
            && (forall i :: 0 <= i < |d.pinnedFields| ==> f["pinned_fields"].items[i] == JString(d.pinnedFields[i]))
            && (d.source == Manual ==> f["source"] == JString("manual"))
            && (d.source == Docker ==> f["source"] == JString("docker"))
            && (d.source == Traefik ==> f["source"] == JString("traefik"))
  {
  }

  /** The entry has a text under this key that is not empty. */
  predicate Gives(fields: map<string, Json>, key: string, text: string) {
    key in fields && fields[key] == JString(text) && text != ""
  }

  /** The values that Python takes for false. */
  predicate Falsy(v: Json) {
    v == JNull || v == JBool(false) || v == JNumber(0) || v == JString("") || v == JList([]) || v == JObject(map[])
  }

  lemma TruthyExactly(v: Json)
    ensures Truthy(v) <==> !Falsy(v)
  {
  }

  lemma {:induction false} StringsHave(items: seq<Json>, text: string)
    ensures text in Strings(items) <==> JString(text) in items
  {
    if items != [] {
      StringsHave(items[1..], text);
      assert items == [items[0]] + items[1..];
    }
  }

  /** A record is switched off if and only if its entry says something false, and its pinned fields are
      the texts among what the entry lists. */
  lemma FlagsRead(tx: Text, fields: map<string, Json>, freshId: string, now: string)
    ensures var d := FromDict(tx, JObject(fields), freshId, now);
            d.Some? ==>
              && (d.value.enabled <==> !("enabled" in fields && Falsy(fields["enabled"])))
              && forall text :: text in d.value.pinnedFields <==>
                   "pinned_fields" in fields && fields["pinned_fields"].JList? && JString(text) in fields["pinned_fields"].items
  {
    if "enabled" in fields {
      TruthyExactly(fields["enabled"]);
    }
    if "pinned_fields" in fields && fields["pinned_fields"].JList? {
      forall text ensures text in PinnedField(fields) <==> JString(text) in fields["pinned_fields"].items {
        StringsHave(fields["pinned_fields"].items, text);
      }
    }
  }

  /** What an entry is read as, whatever it lacks or has under a wrong type: it is unusable if and only
      if it has no name but blanks, and every other field has what the entry gives, or its default. */
  lemma EntryReads(tx: Text, fields: map<string, Json>, freshId: string, now: string)
    ensures var d := FromDict(tx, JObject(fields), freshId, now);
            && (d.Some? <==> exists text :: Gives(fields, "name", text) && tx.Strip(text) != "")
            && (d.Some? ==>
                  && (forall text :: Gives(fields, "name", text) ==> d.value.name == tx.Strip(text))
                  && (forall text :: Gives(fields, "id", text) ==> d.value.id == text)
                  && (d.value.id == freshId || Gives(fields, "id", d.value.id))
                  && (forall text :: Gives(fields, "address", text) ==> d.value.address == text)
                  && (d.value.address == "127.0.0.1" || Gives(fields, "address", d.value.address))
                  && (forall text :: Gives(fields, "created_at", text) ==> d.value.createdAt == text)
                  && (d.value.createdAt == now || Gives(fields, "created_at", d.value.createdAt))
                  && (forall text :: Gives(fields, "updated_at", text) ==> d.value.updatedAt == text)
                  && (d.value.updatedAt == d.value.createdAt || Gives(fields, "updated_at", d.value.updatedAt))
                  && (forall text :: Gives(fields, "owner", text) ==> d.value.owner == text)
                  && (d.value.owner == "" || Gives(fields, "owner", d.value.owner))
                  && (forall text :: Gives(fields, "note", text) ==> d.value.note == text)
                  && (d.value.note == "" || Gives(fields, "note", d.value.note))
                  && (d.value.source == Docker <==> Gives(fields, "source", "docker"))
                  && (d.value.source == Traefik <==> Gives(fields, "source", "traefik")))
    ensures forall raw: Json :: !raw.JObject? ==> FromDict(tx, raw, freshId, now).None?
  {
    assert tx.Strip("") == "";
    assert "docker" != "traefik";
    assert forall key, text :: Gives(fields, key, text) ==> TextField(fields, key) == text;
    assert forall key :: TextField(fields, key) == "" || Gives(fields, key, TextField(fields, key));
  }

  /** A record survives the file exactly when it is storable. */
  lemma RoundTripExactly(tx: Text, d: Domain, freshId: string, now: string)
    requires freshId != "" && now != ""
    ensures FromDict(tx, ToDict(d), freshId, now) == Some(d) <==> Storable(tx, d)
  {
    FieldsReadBack(d);
  }

  lemma StripIsIdempotent(tx: Text, s: string)
    ensures tx.Strip(tx.Strip(s)) == tx.Strip(s)
  {
    StripTrims(tx, s);
    tx.StripFixpoint(tx.Strip(s));
  }

  /** Whatever a file holds, what is read from it is storable: writing it back loses nothing. */
  lemma LoadedIsStorable(tx: Text, raw: Json, freshId: string, now: string)
    requires freshId != "" && now != ""
    ensures var d := FromDict(tx, raw, freshId, now);
            d.Some? ==> Storable(tx, d.value) && FromDict(tx, ToDict(d.value), freshId, now) == d
  {
    var d := FromDict(tx, raw, freshId, now);
    if d.Some? {
      StripIsIdempotent(tx, TextField(raw.fields, "name"));
      RoundTripExactly(tx, d.value, freshId, now);
    }
  }
}
