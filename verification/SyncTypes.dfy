/** The rows and messages of metadata synchronisation. */
module SyncTypes {
  import opened Outcomes

  /** JSON, as far as synchronisation looks into it. A `WideFloat` is a floating-point number that is written with an
      exponent and whose value is an integer of 64 bits, like 1e16; `Other` stands for all other numbers, integers
      among them, and for booleans. */
  datatype Json =
    | Null
    | Str(text: string)
    | Obj(fields: map<string, Json>)
    | Arr(items: seq<Json>)
    | Other(tag: int)
    | WideFloat(value: int)

  datatype Key = Key(kind: string, id: string)

  type PeerId = string

  /** A row of `daemon_entities`. */
  datatype Entity = Entity(revision: nat, payload: Json, tombstone: bool)

  /** A row of `daemon_sync_changes`; the row at index `i` has cursor `i + 1`. */
  datatype LocalChange = LocalChange(key: Key, entity: Entity)

  /** The remote entity handed to `sync.apply_remote`, after validation. */
  datatype Remote = Remote(key: Key, revision: nat, payload: Option<Json>, tombstone: bool)

  datatype Resolution = UseRemote | KeepLocal

  /** A row of `daemon_sync_conflicts`; the row at index `i` has conflict id `i`. */
  datatype Conflict = Conflict(peer: PeerId, key: Key, local: Option<Entity>, remote: Remote,
                               resolution: Option<Resolution>)

  /** A row of `daemon_sync_peers`. */
  datatype Peer = Peer(localCursor: nat, remoteCursor: nat)

  /** The daemon's database, as far as synchronisation reads or writes it. */
  datatype Store = Store(peers: map<PeerId, Peer>, entities: map<Key, Entity>,
                         outbox: seq<LocalChange>, conflicts: seq<Conflict>)

  datatype ApplyStatus = Conflicted(id: nat) | IgnoredStale | Applied

  datatype SyncError =
    | NotAnObject
    | InvalidRemote
    | RevisionConflict
    | DuplicateRevision
    | NoSuchEntity
    | NoSuchConflict
    | LocalEntityMissing
    | InvalidIdentity
    | OperationMismatch
    | RefusedByServer

  /** The parts of a cursor-addressed push: the device's operation id is a hash of device and cursor. */
  datatype OperationId = OperationId(device: nat, cursor: nat)

  datatype ServerEntity = ServerEntity(revision: nat, payload: Option<Json>, tombstone: bool)

  /** A pushed change; its timestamp counts nanoseconds. */
  datatype SyncChange = SyncChange(operation: OperationId, key: Key, base: nat, payload: Option<Json>, tombstone: bool,
                                   timestamp: nat)

  datatype Answer = Accepted(entity: ServerEntity) | Rejected(current: Option<ServerEntity>)

  /** A row of the server's `sync_changes`. */
  datatype ServerRow = ServerRow(cursor: nat, key: Key, entity: ServerEntity)

  /** The server's tables for one user. */
  datatype Server = Server(entities: map<Key, ServerEntity>, log: seq<ServerRow>,
                           operations: map<OperationId, (SyncChange, Answer)>)
}
