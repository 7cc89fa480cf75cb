/** The daemon's database object and the control plane's, each transaction updating its tables in place. */
module SyncDaemon {
  import opened Outcomes
  import opened SyncTypes
  import opened SyncPayload
  import opened SyncStore
  import opened SyncServer
  import opened SyncSystem
  import Transactions = SyncTransactions

  /** The fields of the JSON object that `sync.apply_remote` receives. */
  datatype RawRemote = RawRemote(kind: string, id: string, revision: int, payload: Option<Json>,
                                 tombstone: Option<bool>, operation: Option<string>)

  /** The length of a text in bytes and the size of a value as JSON. */
  datatype Sizes = Sizes(bytes: string -> nat, json: Json -> nat)

  const MAX_KIND_BYTES := 64
  const MAX_PAYLOAD_BYTES := 512 * 1024
  const MAX_ID_BYTES := 500

  predicate TooLarge(sizes: Sizes, raw: RawRemote) {
    || sizes.bytes(Trim(raw.kind)) > MAX_KIND_BYTES
    || (raw.payload.Some? && raw.payload.value != Null && sizes.json(raw.payload.value) > MAX_PAYLOAD_BYTES)
  }

  /** `RemoteEntity::from_value`: trims the identity, defaults the tombstone flag from the operation, and rejects a
      blank identity, a revision below one, a live entity whose payload is not an object, and what exceeds the
      limits. */
  function ParseRemote(sizes: Sizes, raw: RawRemote): (r: Result<Remote, SyncError>)
    ensures r.Ok? ==> ValidRemote(r.value) && r.value.key == Key(Trim(raw.kind), Trim(raw.id))
    ensures r.Ok? ==>
              r.value.revision == raw.revision && (raw.tombstone.Some? ==> r.value.tombstone == raw.tombstone.value)
    ensures r.Err? <==>
              || Trim(raw.kind) == "" || Trim(raw.id) == "" || raw.revision < 1 || TooLarge(sizes, raw)
              || (raw.tombstone != Some(true) && (raw.tombstone.Some? || raw.operation != Some("delete"))
                  && (raw.payload.None? || !raw.payload.value.Obj?))
  {
    var key := Key(Trim(raw.kind), Trim(raw.id));
    var tombstone := if raw.tombstone.Some? then raw.tombstone.value else raw.operation == Some("delete");
    var payload := if raw.payload == Some(Null) then None else raw.payload;
    if key.kind == "" || sizes.bytes(key.kind) > MAX_KIND_BYTES || key.id == "" || raw.revision < 1 then
      Err(InvalidRemote)
    else if !tombstone && !(payload.Some? && payload.value.Obj?) then Err(InvalidRemote)
    else if payload.Some? && sizes.json(payload.value) > MAX_PAYLOAD_BYTES then Err(InvalidRemote)
    else Ok(Remote(key, raw.revision, payload, tombstone))
  }

  /** What `apply_remote_entity` sends for a server entity. */
  function Sent(key: Key, e: ServerEntity): RawRemote {
    var id := if NamedId(e.payload).Some? then NamedId(e.payload).value else key.id;
    var payload := if e.payload.Some? then Some(ToLocal(key.kind, e.payload.value)) else None;
    RawRemote(key.kind, id, e.revision, payload, Some(e.tombstone), None)
  }

  /** The daemon parses what the agent sends into the remote entity of the transition system, unless it is invalid or
      too large. */
  lemma {:induction false} SentIsParsed(sizes: Sizes, key: Key, e: ServerEntity)
    requires e.payload != Some(Null)
    ensures ParseRemote(sizes, Sent(key, e)).Ok? <==> ValidRemote(RemoteOf(key, e)) && !TooLarge(sizes, Sent(key, e))
    ensures ParseRemote(sizes, Sent(key, e)).Ok? ==> ParseRemote(sizes, Sent(key, e)).value == RemoteOf(key, e)
  {
    hide Trim;
  }

  /** `validate_daemon_entity_identity`. */
  predicate ValidIdentity(sizes: Sizes, key: Key) {
    IsDaemonKind(key.kind) && Trim(key.id) != "" && sizes.bytes(key.id) <= MAX_ID_BYTES && '\0' !in key.id
  }

  class Daemon {
    const sizes: Sizes
    var peers: map<PeerId, Peer>
    var entities: map<Key, Entity>
    var outbox: seq<LocalChange>
    var conflicts: seq<Conflict>

    function State(): Store
      reads this
    {
      Store(peers, entities, outbox, conflicts)
    }

    /** Every stored conflict still parses. */
    predicate Valid()
      reads this
    {
      forall i :: 0 <= i < |conflicts| ==> ValidRemote(conflicts[i].remote)
    }

    constructor (measure: Sizes)
      ensures Valid() && State() == Store(map[], map[], [], []) && sizes == measure
    {
      sizes := measure;
      peers, entities, outbox, conflicts := map[], map[], [], [];
    }

    method EnsurePeerRow(peer: PeerId)
      modifies this`peers
      ensures State() == EnsurePeer(old(State()), peer)
    {
      if peer !in peers {
        peers := peers[peer := Peer(0, 0)];
      } else {
        assert peers == peers[peer := peers[peer]];
      }
    }

    method AcknowledgeLocal(peer: PeerId, cursor: nat) returns (p: Peer)
      requires Valid()
      modifies this`peers
      ensures Valid() && State() == Acknowledge(old(State()), peer, cursor)
      ensures p == PeerOf(State(), peer) && p.localCursor >= cursor
    {
      EnsurePeerRow(peer);
      peers := peers[peer := peers[peer].(localCursor := Max(peers[peer].localCursor, cursor))];
      p := peers[peer];
    }

    method AdvanceRemoteCursor(peer: PeerId, cursor: nat)
      requires peer in peers
      modifies this`peers
      ensures State() == AdvanceRemote(old(State()), peer, cursor)
    {
      peers := peers[peer := peers[peer].(remoteCursor := Max(peers[peer].remoteCursor, cursor))];
    }

    method Record(peer: PeerId, existing: Option<nat>, local: Option<Entity>, remote: Remote) returns (id: nat)
      requires Valid() && ValidRemote(remote)
      requires existing == FindOpen(conflicts, peer, remote.key) && local == Lookup(State(), remote.key)
      modifies this`conflicts
      ensures Valid() && (State(), id) == RecordConflict(old(State()), peer, remote)
    {
      if existing.Some? {
        id := existing.value;
        conflicts := conflicts[id := conflicts[id].(local := local, remote := remote)];
      } else {
        id := |conflicts|;
        conflicts := conflicts + [Conflict(peer, remote.key, local, remote, None)];
      }
    }

    method WriteRemoteEntity(remote: Remote)
      requires ValidRemote(remote)
      modifies this`entities
      ensures State() == WriteRemote(old(State()), remote)
    {
      var payload;
      if remote.tombstone {
        payload := if remote.key in entities then entities[remote.key].payload else Obj(map[]);
      } else {
        payload := remote.payload.value;
      }
      entities := entities[remote.key := Entity(remote.revision, payload, remote.tombstone)];
    }

    /** A rejected request changes nothing. */
    method ApplyRemoteEntity(peer: PeerId, cursor: nat, raw: RawRemote) returns (r: Result<ApplyStatus, SyncError>)
      requires Valid()
      modifies this
      ensures Valid()
      ensures r.Err? <==> ParseRemote(sizes, raw).Err?
      ensures r.Err? ==> State() == old(State())
      ensures r.Ok? ==> (State(), r.value) == ApplyRemote(old(State()), peer, cursor, ParseRemote(sizes, raw).value)
    {
      var parsed := ParseRemote(sizes, raw);
      if parsed.Err? {
        return Err(parsed.error);
      }
      var remote := parsed.value;
      EnsurePeerRow(peer);
      var localCursor := peers[peer].localCursor;
      var current := Lookup(State(), remote.key);
      var unresolved := FindOpen(conflicts, peer, remote.key);
      var pending := exists i :: localCursor <= i < |outbox| && outbox[i].key == remote.key;
      var diverged := current.Some? && current.value.revision == remote.revision
                      && (current.value.tombstone != remote.tombstone
                          || (!remote.tombstone && remote.payload != Some(current.value.payload)));
      if pending || unresolved.Some? || diverged {
        var id := Record(peer, unresolved, current, remote);
        AdvanceRemoteCursor(peer, cursor);
        return Ok(Conflicted(id));
      }
      if current.Some? && current.value.revision > remote.revision {
        AdvanceRemoteCursor(peer, cursor);
        return Ok(IgnoredStale);
      }
      WriteRemoteEntity(remote);
      AdvanceRemoteCursor(peer, cursor);
      return Ok(Applied);
    }

    /** Upserts the row and appends it to the outbox; the outbox's unique index refuses a second change with the same
        revision, and the transaction then changes nothing. */
    method WriteAndLog(key: Key, e: Entity) returns (r: Result<(), SyncError>)
      modifies this`entities, this`outbox
      ensures r.Err? ==> WriteLocal(old(State()), key, e) == Err(r.error) && State() == old(State())
      ensures r.Ok? ==> WriteLocal(old(State()), key, e) == Ok(State())
    {
      if HasRevision(outbox, key, e.revision) {
        return Err(DuplicateRevision);
      }
      entities := entities[key := e];
      outbox := outbox + [LocalChange(key, e)];
      return Ok(());
    }

    method ResolveConflict(peer: PeerId, id: nat, resolution: Resolution) returns (r: Result<(), SyncError>)
      requires Valid()
      modifies this
      ensures Valid()
      ensures r.Err? ==> Resolve(old(State()), peer, id, resolution) == Err(r.error) && State() == old(State())
      ensures r.Ok? ==> Resolve(old(State()), peer, id, resolution) == Ok(State())
    {
      if id >= |conflicts| || conflicts[id].peer != peer || conflicts[id].resolution.Some? {
        return Err(NoSuchConflict);
      }
      var c := conflicts[id];
      match resolution {
        case UseRemote =>
          WriteRemoteEntity(c.remote);
        case KeepLocal =>
          if c.local.None? {
            return Err(LocalEntityMissing);
          }
          var written := WriteAndLog(c.key,
                                     Entity(c.remote.revision + 1, c.local.value.payload, c.local.value.tombstone));
          if written.Err? {
            return Err(written.error);
          }
      }
      conflicts := conflicts[id := conflicts[id].(resolution := Some(resolution))];
      return Ok(());
    }

    method PutEntity(key: Key, payload: Json, expected: Option<nat>) returns (r: Result<(), SyncError>)
      requires Valid()
      modifies this`entities, this`outbox
      ensures Valid()
      ensures !ValidIdentity(sizes, key) ==> r == Err(InvalidIdentity)
      ensures ValidIdentity(sizes, key) && r.Err? ==> WriteEntity(old(State()), key, payload, expected) == Err(r.error)
      ensures r.Err? ==> State() == old(State())
      ensures r.Ok? ==> WriteEntity(old(State()), key, payload, expected) == Ok(State())
      ensures ValidIdentity(sizes, key) ==>
                Transactions.PutResult(old(State()), key, payload, expected,
                                       if r.Ok? then Ok(State()) else Err(r.error))
    {
      Transactions.PutMeans(State(), key, payload, expected);
      hide Transactions.PutResult;
      if !ValidIdentity(sizes, key) {
        return Err(InvalidIdentity);
      }
      if !payload.Obj? {
        return Err(NotAnObject);
      }
      var current := Lookup(State(), key);
      if expected.Some? && expected.value != (if current.Some? then current.value.revision else 0) {
        return Err(RevisionConflict);
      }
      if current.Some? && !current.value.tombstone && current.value.payload == payload {
        return Ok(());
      }
      r := WriteAndLog(key, Entity(if current.Some? then current.value.revision + 1 else 1, payload, false));
    }

    method DeleteEntity(key: Key, expected: Option<nat>) returns (r: Result<(), SyncError>)
      requires Valid()
      modifies this`entities, this`outbox
      ensures Valid()
      ensures !ValidIdentity(sizes, key) ==> r == Err(InvalidIdentity)
      ensures ValidIdentity(sizes, key) && r.Err? ==> TombstoneEntity(old(State()), key, expected) == Err(r.error)
      ensures r.Err? ==> State() == old(State())
      ensures r.Ok? ==> TombstoneEntity(old(State()), key, expected) == Ok(State())
      ensures ValidIdentity(sizes, key) ==>
                Transactions.DeleteResult(old(State()), key, expected, if r.Ok? then Ok(State()) else Err(r.error))
    {
      Transactions.DeleteMeans(State(), key, expected);
      hide Transactions.DeleteResult;
      if !ValidIdentity(sizes, key) {
        return Err(InvalidIdentity);
      }
      if key !in entities {
        return Err(NoSuchEntity);
      }
      var current := entities[key];
      if expected.Some? && expected.value != current.revision {
        return Err(RevisionConflict);
      }
      r := WriteAndLog(key, Entity(current.revision + 1, current.payload, true));
    }
  }

  /** A batch applied change by change from this state, as far as it goes: the server afterwards, and the answers or
      the refusal that stopped it. Each change may use up to `stride` log cursors. */
  function ApplyBatch(policy: Policy, v: Server, changes: seq<SyncChange>, cursor: nat, stride: nat)
    : (Server, Result<seq<Answer>, SyncError>)
  {
    if changes == [] then (v, Ok([]))
    else
      var n := |changes| - 1;
      var (before, answers) := ApplyBatch(policy, v, changes[..n], cursor, stride);
      if answers.Err? then (before, answers)
      else
        match ApplyChange(policy, before, changes[n], cursor + n * stride)
        case Err(e) => (before, Err(e))
        case Ok((after, answer)) => (after, Ok(answers.value + [answer]))
  }

  lemma {:induction false} RefusedBatch(policy: Policy, v: Server, changes: seq<SyncChange>, cursor: nat, stride: nat,
                                        k: nat)
    requires k <= |changes| && ApplyBatch(policy, v, changes[..k], cursor, stride).1.Err?
    ensures ApplyBatch(policy, v, changes, cursor, stride) == ApplyBatch(policy, v, changes[..k], cursor, stride)
    decreases |changes|
  {
    hide ApplyChange;
    if k == |changes| {
      assert changes[..k] == changes;
    } else {
      var rest := changes[..|changes| - 1];
      assert rest[..k] == changes[..k];
      RefusedBatch(policy, v, rest, cursor, stride, k);
    }
  }

  /** A batch of the allowed size that passes validation. */
  predicate ValidBatch(policy: Policy, changes: seq<SyncChange>) {
    0 < |changes| <= PAGE && forall i :: 0 <= i < |changes| ==> ValidChange(policy, changes[i])
  }

  class ControlPlane {
    const policy: Policy
    var entities: map<Key, ServerEntity>
    var log: seq<ServerRow>
    var operations: map<OperationId, (SyncChange, Answer)>

    function State(): Server
      reads this
    {
      Server(entities, log, operations)
    }

    constructor (rules: Policy)
      ensures State() == Server(map[], [], map[]) && policy == rules
    {
      policy := rules;
      entities, log, operations := map[], [], map[];
    }

    /** The next revision of an entity, with its log row. */
    method Write(key: Key, payload: Option<Json>, tombstone: bool, cursor: nat)
      modifies this`entities, this`log
      ensures State() == Commit(old(State()), key, payload, tombstone, cursor)
    {
      var revision := if key in entities then entities[key].revision + 1 else 1;
      var e := ServerEntity(revision, Stored(payload), tombstone);
      entities := entities[key := e];
      log := log + [ServerRow(cursor, key, e)];
    }

    /** What materialisation publishes about other entities than `key`, one after the other. */
    method PublishReactions(reactions: seq<Reaction>, key: Key, cursor: nat)
      modifies this`entities, this`log
      ensures State() == ReactAll(old(State()), reactions, key, cursor)
    {
      hide Commit, Column, Trimmed, Plain;
      for i := 0 to |reactions|
        invariant State() == ReactAll(old(State()), reactions[..i], key, cursor)
      {
        var reaction := reactions[i];
        assert reactions[..i + 1][..i] == reactions[..i];
        if reaction.key != key {
          match reaction {
            case Retract(k) =>
              if !(k in entities && entities[k].tombstone) {
                Write(k, None, true, cursor + i);
              }
            case Announce(k, payload) =>
              if !(k in entities && !entities[k].tombstone && entities[k].payload == Some(payload)) {
                Write(k, Some(payload), false, cursor + i);
              }
          }
        }
      }
      assert reactions[..|reactions|] == reactions;
    }

    /** One pushed change. A refused one changes nothing. Log cursors start at `cursor`. */
    method Push(change: SyncChange, cursor: nat) returns (r: Result<Answer, SyncError>)
      modifies this`entities, this`log, this`operations
      ensures r.Err? ==> ApplyChange(policy, old(State()), change, cursor) == Err(r.error) && State() == old(State())
      ensures r.Ok? ==> ApplyChange(policy, old(State()), change, cursor) == Ok((State(), r.value))
    {
      hide ReactAll;
      if change.operation in operations {
        var (stored, answer) := operations[change.operation];
        if stored != change {
          return Err(OperationMismatch);
        }
        return Ok(answer);
      }
      var current := if change.key in entities then Some(entities[change.key]) else None;
      var revision := if current.Some? then current.value.revision else 0;
      var answer;
      if revision != change.base {
        answer := Rejected(current);
      } else {
        if policy.refuses(State(), change) {
          return Err(RefusedByServer);
        }
        var reactions := policy.reacts(State(), change);
        PublishReactions(reactions, change.key, cursor);
        Write(change.key, change.payload, change.tombstone, cursor + |reactions|);
        answer := Accepted(entities[change.key]);
      }
      var kept := change.(payload := Stored(change.payload), timestamp := change.timestamp - change.timestamp % 1000);
      operations := operations[change.operation := (kept, answer)];
      return Ok(answer);
    }

    /** A pushed batch: all of it is validated before any of it is applied, and a refused change stops it after those
        before it were applied. */
    method PushChanges(changes: seq<SyncChange>, cursor: nat, stride: nat) returns (r: Result<seq<Answer>, SyncError>)
      modifies this`entities, this`log, this`operations
      ensures !ValidBatch(policy, changes) ==> r == Err(RefusedByServer) && State() == old(State())
      ensures ValidBatch(policy, changes) ==>
                (State(), r) == ApplyBatch(policy, old(State()), changes, cursor, stride)
    {
      hide ApplyChange, ValidChange;
      if |changes| == 0 || |changes| > PAGE {
        return Err(RefusedByServer);
      }
      for i := 0 to |changes|
        invariant forall j :: 0 <= j < i ==> ValidChange(policy, changes[j])
        invariant State() == old(State())
      {
        if !ValidChange(policy, changes[i]) {
          return Err(RefusedByServer);
        }
      }
      var answers: seq<Answer> := [];
      for i := 0 to |changes|
        invariant (State(), Ok(answers)) == ApplyBatch(policy, old(State()), changes[..i], cursor, stride)
      {
        assert changes[..i + 1][..i] == changes[..i];
        var answer := Push(changes[i], cursor + i * stride);
        if answer.Err? {
          RefusedBatch(policy, old(State()), changes, cursor, stride, i + 1);
          return Err(answer.error);
        }
        answers := answers + [answer.value];
      }
      assert changes[..|changes|] == changes;
      r := Ok(answers);
    }
  }
}
