/** The control plane's metadata tables and the transactions on them. */
module SyncServer {
  import opened Outcomes
  import opened SyncTypes
  import opened SyncPayload

  const PAGE := 100

  function CurrentRevision(v: Server, key: Key): nat {
    if key in v.entities then v.entities[key].revision else 0
  }

  function CurrentEntity(v: Server, key: Key): Option<ServerEntity> {
    if key in v.entities then Some(v.entities[key]) else None
  }

  // ---- what the server refuses ----

  type ServerKey = key: Key | Trimmed(key) witness Key("", "")
  type PlainObject = payload: Json | Plain(payload) witness Obj(map[])

  /** What materialising a change publishes about entities that depend on it. */
  datatype Reaction = Retract(key: ServerKey) | Announce(key: ServerKey, payload: PlainObject)

  /** The server's limits and the parts of it that synchronisation does not see: changes whose payload is too large or
      whose timestamp is too far ahead, changes that the storage quota or materialisation refuses, and what
      materialisation publishes besides. */
  datatype Policy = Policy(exceeds: SyncChange -> bool, refuses: (Server, SyncChange) -> bool,
                           reacts: (Server, SyncChange) -> seq<Reaction>)

  function LowerChar(c: char): char {
    if 'A' <= c <= 'Z' then c - 'A' + 'a' else c
  }

  function Lower(s: string): string {
    seq(|s|, i requires 0 <= i < |s| => LowerChar(s[i]))
  }

  predicate SecretField(name: string) {
    || name == "api_key" || name == "access_token" || name == "refresh_token" || name == "password" || name == "secret"
    || name == "client_secret" || name == "authorization"
  }

  /** Some object anywhere in the value has a field with the name of a secret. */
  predicate ContainsSecret(value: Json) {
    match value
    case Obj(fields) => exists name :: name in fields && (SecretField(Lower(name)) || ContainsSecret(fields[name]))
    case Arr(items) => exists i :: 0 <= i < |items| && ContainsSecret(items[i])
    case _ => false
  }

  predicate IsServerKind(kind: string) {
    IsDaemonKind(kind) || kind == "run"
  }

  predicate MetadataKind(kind: string) {
    kind == "provider_profile" || kind == "secret_metadata" || kind == "mcp_metadata"
  }

  /** What `validate_change` demands. */
  predicate ValidChange(policy: Policy, c: SyncChange) {
    && IsServerKind(c.key.kind)
    && (c.tombstone <==> c.payload.None?)
    && !policy.exceeds(c)
    && (c.payload.Some? ==> !(MetadataKind(c.key.kind) && ContainsSecret(c.payload.value)))
  }

  // ---- transactions ----

  /** Writes the next revision of an entity and logs it at `cursor`. */
  function Commit(v: Server, key: Key, payload: Option<Json>, tombstone: bool, cursor: nat): Server {
    var e := ServerEntity(CurrentRevision(v, key) + 1, Stored(payload), tombstone);
    v.(entities := v.entities[key := e], log := v.log + [ServerRow(cursor, key, e)])
  }

  /** `publish_server_entity_tx` for a JSON payload. */
  function Publish(v: Server, key: Key, payload: Json, cursor: nat): Server {
    if key in v.entities && !v.entities[key].tombstone && v.entities[key].payload == Some(payload) then v
    else Commit(v, key, Some(payload), false, cursor)
  }

  /** `publish_server_tombstone_tx`. */
  function PublishTombstone(v: Server, key: Key, cursor: nat): Server {
    if key in v.entities && v.entities[key].tombstone then v
    else Commit(v, key, None, true, cursor)
  }

  function React(v: Server, reaction: Reaction, cursor: nat): Server {
    match reaction
    case Retract(key) => PublishTombstone(v, key, cursor)
    case Announce(key, payload) => Publish(v, key, payload, cursor)
  }

  /** The reactions to a change of `key`, each at its own cursor, before the row of the change itself. */
  function ReactAll(v: Server, reactions: seq<Reaction>, key: Key, cursor: nat): Server {
    if reactions == [] then v
    else
      var n := |reactions| - 1;
      var before := ReactAll(v, reactions[..n], key, cursor);
      if reactions[n].key == key then before else React(before, reactions[n], cursor + n)
  }

  /** What the operations table gives back: payloads are columns, and timestamps have microseconds. */
  function Recorded(c: SyncChange): SyncChange {
    c.(payload := Stored(c.payload), timestamp := c.timestamp - c.timestamp % 1000)
  }

  function Remember(v: Server, c: SyncChange, answer: Answer): Server {
    v.(operations := v.operations[c.operation := (Recorded(c), answer)])
  }

  /** An accepted change: what it sets off, then its own row. */
  function Accept(policy: Policy, v: Server, c: SyncChange, cursor: nat): Server {
    var reactions := policy.reacts(v, c);
    Commit(ReactAll(v, reactions, c.key, cursor), c.key, c.payload, c.tombstone, cursor + |reactions|)
  }

  /** `apply_change`: a repeated operation replays its stored answer if it equals what was stored, and a new one is
      accepted exactly when its base is the current revision and nothing refuses it. Log cursors start at `cursor`. */
  function ApplyChange(policy: Policy, v: Server, c: SyncChange, cursor: nat): Result<(Server, Answer), SyncError> {
    if c.operation in v.operations then
      var (stored, answer) := v.operations[c.operation];
      if stored == c then Ok((v, answer)) else Err(OperationMismatch)
    else if CurrentRevision(v, c.key) != c.base then
      var answer := Rejected(CurrentEntity(v, c.key));
      Ok((Remember(v, c, answer), answer))
    else if policy.refuses(v, c) then Err(RefusedByServer)
    else
      var w := Accept(policy, v, c, cursor);
      var answer := Accepted(w.entities[c.key]);
      Ok((Remember(w, c, answer), answer))
  }

  /** The index of the first row after a cursor, in a log with ascending cursors. */
  function FirstAfter(log: seq<ServerRow>, after: nat): (i: nat)
    ensures i <= |log|
    ensures forall j :: 0 <= j < i ==> log[j].cursor <= after
    ensures i < |log| ==> log[i].cursor > after
  {
    if log == [] || log[0].cursor > after then 0 else 1 + FirstAfter(log[1..], after)
  }

  /** `pull_changes_for_device` with a page limit. */
  function Pull(v: Server, after: nat): (page: seq<ServerRow>)
    ensures |page| <= PAGE
  {
    var i := FirstAfter(v.log, after);
    v.log[i..if i + PAGE <= |v.log| then i + PAGE else |v.log|]
  }
}
