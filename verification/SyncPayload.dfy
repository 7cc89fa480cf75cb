/** Entity identity and the payload mapping between the device and the server. */
module SyncPayload {
  import opened Outcomes
  import opened SyncTypes

  const LOCAL_ID := "_cowork_local_entity_id"
  const LOCAL_PROFILE := "_cowork_local_model_profile_id"
  const PROFILE := "model_profile_id"

  /** UUID parsing, UUID printing and the 128-bit entity-id hash, left uninterpreted. */
  datatype IdScheme = IdScheme(parse: string -> Option<nat>, show: nat -> string,
                               hash: (string, string) -> nat)

  function StableId(ids: IdScheme, kind: string, localId: string): nat {
    match ids.parse(localId)
    case Some(id) => id
    case None => ids.hash(kind, localId)
  }

  /** Whether a schedule's profile reference must be rewritten for the server. */
  predicate HasLocalProfile(ids: IdScheme, kind: string, fields: map<string, Json>) {
    && kind == "schedule"
    && PROFILE in fields
    && fields[PROFILE].Str?
    && ids.parse(fields[PROFILE].text).None?
  }

  function ToServer(ids: IdScheme, kind: string, localId: string, payload: Json): (r: Result<Json, SyncError>)
    ensures r.Ok? <==> payload.Obj?
    ensures r.Ok? ==> r.value.Obj?
  {
    if !payload.Obj? then Err(NotAnObject)
    else
      var named := if ids.parse(localId).None? then payload.fields[LOCAL_ID := Str(localId)] else payload.fields;
      if HasLocalProfile(ids, kind, named) then
        var local := named[PROFILE].text;
        var server := ids.show(StableId(ids, "provider_profile", local));
        Ok(Obj(named[LOCAL_PROFILE := Str(local)][PROFILE := Str(server)]))
      else Ok(Obj(named))
  }

  function ToLocal(kind: string, payload: Json): (r: Json)
    ensures r.Obj? <==> payload.Obj?
    ensures r.Obj? ==> Plain(r)
  {
    if !payload.Obj? then payload
    else
      var fields := payload.fields - {LOCAL_ID, LOCAL_PROFILE};
      if kind == "schedule" && LOCAL_PROFILE in payload.fields && payload.fields[LOCAL_PROFILE].Str? then
        Obj(fields[PROFILE := payload.fields[LOCAL_PROFILE]])
      else Obj(fields)
  }

  /** An object without the two reserved keys. */
  predicate Plain(payload: Json) {
    payload.Obj? && LOCAL_ID !in payload.fields && LOCAL_PROFILE !in payload.fields
  }

  /** Mapping an object to the server form and back is the identity exactly for payloads without reserved keys. */
  lemma {:induction false} PayloadRoundTrip(ids: IdScheme, kind: string, localId: string, payload: Json)
    requires payload.Obj?
    ensures ToLocal(kind, ToServer(ids, kind, localId, payload).value) == payload <==> Plain(payload)
  {
    var back := ToLocal(kind, ToServer(ids, kind, localId, payload).value);
    if Plain(payload) {
      assert back.fields == payload.fields;
    }
  }

  /** What a JSONB column gives back: a number loses its exponent, and so is read as an integer where it is one. */
  function Column(json: Json): Json {
    match json
    case Obj(fields) => Obj(map name | name in fields :: Column(fields[name]))
    case Arr(items) => Arr(seq(|items|, i requires 0 <= i < |items| => Column(items[i])))
    case WideFloat(value) => Other(value)
    case _ => json
  }

  function Stored(payload: Option<Json>): Option<Json> {
    if payload.Some? then Some(Column(payload.value)) else None
  }

  /** A payload that comes back unchanged: an object without reserved keys and without numbers that a column changes. */
  predicate Steady(payload: Json) {
    Plain(payload) && Column(payload) == payload
  }

  /** What was pushed, stored and mapped back is what was pushed exactly for steady payloads. */
  lemma {:induction false} StoredRoundTrip(ids: IdScheme, kind: string, localId: string, payload: Json)
    requires payload.Obj?
    ensures ToLocal(kind, Column(ToServer(ids, kind, localId, payload).value)) == payload <==> Steady(payload)
  {
    ColumnOfServerForm(ids, kind, localId, payload);
    var stored := Column(payload);
    PayloadRoundTrip(ids, kind, localId, stored);
    assert Plain(payload) <==> Plain(stored);
    hide ToServer, Column;
  }

  /** The column keeps names and texts, so it does not matter whether a payload is mapped before or after. */
  lemma {:induction false} ColumnOfServerForm(ids: IdScheme, kind: string, localId: string, payload: Json)
    requires payload.Obj?
    ensures Column(payload).Obj?
    ensures Column(ToServer(ids, kind, localId, payload).value) == ToServer(ids, kind, localId, Column(payload)).value
  {
    var left := Column(ToServer(ids, kind, localId, payload).value);
    var right := ToServer(ids, kind, localId, Column(payload)).value;
    if PROFILE in payload.fields {
      ColumnKeepsText(payload.fields[PROFILE]);
    }
    assert left.fields.Keys == right.fields.Keys;
    forall name | name in left.fields
      ensures left.fields[name] == right.fields[name]
    {
      ColumnKeepsText(ToServer(ids, kind, localId, payload).value.fields[name]);
    }
    assert left.fields == right.fields;
  }

  lemma {:induction false} ColumnKeepsText(json: Json)
    ensures Column(json).Str? <==> json.Str?
    ensures json.Str? ==> Column(json) == json
  {
  }

  /** The characters that `str::trim` removes: those with the Unicode White_Space property. */
  predicate IsSpace(c: char) {
    || '\t' <= c <= '\r' || c == ' ' || c == '\U{85}' || c == '\U{A0}' || c == '\U{1680}'
    || '\U{2000}' <= c <= '\U{200A}' || c == '\U{2028}' || c == '\U{2029}' || c == '\U{202F}'
    || c == '\U{205F}' || c == '\U{3000}'
  }

  /** The property by its code points. */
  lemma {:induction false} SpacesAre(c: char)
    ensures IsSpace(c) <==>
            || 0x9 <= c as int <= 0xD || 0x2000 <= c as int <= 0x200A
            || c as int in {0x20, 0x85, 0xA0, 0x1680, 0x2028, 0x2029, 0x202F, 0x205F, 0x3000}
  {
  }

  function Trim(s: string): (r: string)
    ensures |r| <= |s|
    ensures r != "" ==> !IsSpace(r[0]) && !IsSpace(r[|r| - 1])
  {
    if s == "" then ""
    else if IsSpace(s[0]) then Trim(s[1..])
    else if IsSpace(s[|s| - 1]) then Trim(s[..|s| - 1])
    else s
  }

  /** The first listed local id whose stable id is `serverId`. */
  function FindLocal(ids: IdScheme, kind: string, serverId: nat, listed: seq<string>): Option<string> {
    if listed == [] then None
    else if StableId(ids, kind, listed[0]) == serverId then Some(listed[0])
    else FindLocal(ids, kind, serverId, listed[1..])
  }

  predicate Trimmed(key: Key) {
    Trim(key.kind) == key.kind && Trim(key.id) == key.id
  }

  /** The entity types the daemon stores and lists. */
  predicate IsDaemonKind(kind: string) {
    || kind == "project" || kind == "thread" || kind == "message" || kind == "task" || kind == "schedule"
    || kind == "crew"
    || kind == "skill" || kind == "memory" || kind == "provider_profile" || kind == "secret_metadata"
    || kind == "mcp_metadata"
  }

  /** The local id that a server payload names, if it is not blank. */
  function NamedId(payload: Option<Json>): (id: Option<string>)
    ensures id.Some? ==> Trim(id.value) != ""
  {
    if payload.Some? && payload.value.Obj? && LOCAL_ID in payload.value.fields
       && payload.value.fields[LOCAL_ID].Str? && Trim(payload.value.fields[LOCAL_ID].text) != "" then
      Some(payload.value.fields[LOCAL_ID].text)
    else None
  }

  lemma {:induction false} StoredIsAddressed(key: Key, payload: Option<Json>)
    ensures NamedId(Stored(payload)) == NamedId(payload)
    ensures Addressed(key, Stored(payload)) <==> Addressed(key, payload)
  {
    hide Trim;
    if payload.Some? && payload.value.Obj? && LOCAL_ID in payload.value.fields {
      ColumnKeepsText(payload.value.fields[LOCAL_ID]);
    }
  }

  /** A trimmed key, and a payload that names no other id than the key's. */
  predicate Addressed(key: Key, payload: Option<Json>) {
    Trimmed(key) && (NamedId(payload).Some? ==> Trim(NamedId(payload).value) == key.id)
  }

  /** The entity comes back to its own row: its server form names no other one. */
  predicate Homeward(ids: IdScheme, key: Key, payload: Json) {
    payload.Obj? && Addressed(key, Some(ToServer(ids, key.kind, key.id, payload).value))
  }

  /** What the agent makes of a plain payload names its own entity or none. */
  lemma {:induction false} ServerFormIsAddressed(ids: IdScheme, key: Key, payload: Json)
    requires Trimmed(key) && Plain(payload)
    ensures Homeward(ids, key, payload)
  {
    hide Trim;
  }

  /** `local_entity_id_for_remote`; `listed` is what `entities.list` returned. */
  function LocalIdForRemote(ids: IdScheme, kind: string, serverId: nat, payload: Option<Json>,
                            listed: seq<string>): string
  {
    if NamedId(payload).Some? then NamedId(payload).value
    else
      match FindLocal(ids, kind, serverId, listed)
      case Some(id) => id
      case None => ids.show(serverId)
  }

  lemma {:induction false} FindLocalUnique(ids: IdScheme, kind: string, id: string, listed: seq<string>)
    requires id in listed
    requires forall other :: other in listed && StableId(ids, kind, other) == StableId(ids, kind, id) ==> other == id
    ensures FindLocal(ids, kind, StableId(ids, kind, id), listed) == Some(id)
  {
    if listed[0] != id {
      FindLocalUnique(ids, kind, id, listed[1..]);
    }
  }

  /** A pushed entity, live or deleted, that comes back from the server is addressed to the local row it was pushed
      from, when no other local row has the same stable id. */
  lemma {:induction false} PushedEntityFindsItsRow(ids: IdScheme, kind: string, id: string, payload: Json,
                                                   listed: seq<string>)
    requires Plain(payload) && Trim(id) != ""
    requires id in listed
    requires forall other :: other in listed && StableId(ids, kind, other) == StableId(ids, kind, id) ==> other == id
    ensures LocalIdForRemote(ids, kind, StableId(ids, kind, id), Some(ToServer(ids, kind, id, payload).value),
                             listed) == id
    ensures LocalIdForRemote(ids, kind, StableId(ids, kind, id), None, listed) == id
  {
    FindLocalUnique(ids, kind, id, listed);
  }
}
