/** The daemon's synchronisation transactions, as functions from one database state to the next. */
module SyncStore {
  import opened Outcomes
  import opened SyncTypes
  import opened SyncPayload

  function PeerOf(s: Store, peer: PeerId): Peer {
    if peer in s.peers then s.peers[peer] else Peer(0, 0)
  }

  function EnsurePeer(s: Store, peer: PeerId): Store {
    s.(peers := s.peers[peer := PeerOf(s, peer)])
  }

  function Lookup(s: Store, key: Key): Option<Entity> {
    if key in s.entities then Some(s.entities[key]) else None
  }

  predicate IsOpen(c: Conflict, peer: PeerId, key: Key) {
    c.peer == peer && c.key == key && c.resolution.None?
  }

  /** The id of the open conflict of a peer and an entity. */
  function FindOpen(conflicts: seq<Conflict>, peer: PeerId, key: Key): (r: Option<nat>)
    ensures r.Some? ==> r.value < |conflicts| && IsOpen(conflicts[r.value], peer, key)
    ensures r.None? ==> forall i :: 0 <= i < |conflicts| ==> !IsOpen(conflicts[i], peer, key)
  {
    if conflicts == [] then None
    else if IsOpen(conflicts[|conflicts| - 1], peer, key) then Some(|conflicts| - 1)
    else FindOpen(conflicts[..|conflicts| - 1], peer, key)
  }

  /** An outbox change of the entity that the peer has not acknowledged. */
  predicate Pending(s: Store, peer: PeerId, key: Key) {
    exists i :: PeerOf(s, peer).localCursor <= i < |s.outbox| && s.outbox[i].key == key
  }

  predicate SameContent(local: Entity, remote: Remote) {
    && local.tombstone == remote.tombstone
    && (!remote.tombstone ==> remote.payload == Some(local.payload))
  }

  predicate Diverged(s: Store, remote: Remote) {
    && remote.key in s.entities
    && s.entities[remote.key].revision == remote.revision
    && !SameContent(s.entities[remote.key], remote)
  }

  /** What `RemoteEntity::from_value` accepts. */
  predicate ValidRemote(r: Remote) {
    && r.key.kind != "" && r.key.id != ""
    && r.revision >= 1
    && (!r.tombstone ==> r.payload.Some? && r.payload.value.Obj?)
  }

  predicate HasRevision(outbox: seq<LocalChange>, key: Key, revision: nat) {
    exists i :: 0 <= i < |outbox| && outbox[i].key == key && outbox[i].entity.revision == revision
  }

  function Max(a: nat, b: nat): nat { if a < b then b else a }

  // ---- sync.ack_local ----

  function Acknowledge(s: Store, peer: PeerId, cursor: nat): Store {
    var p := PeerOf(s, peer);
    s.(peers := s.peers[peer := p.(localCursor := Max(p.localCursor, cursor))])
  }

  // ---- sync.apply_remote ----

  function AdvanceRemote(s: Store, peer: PeerId, cursor: nat): Store {
    var p := PeerOf(s, peer);
    s.(peers := s.peers[peer := p.(remoteCursor := Max(p.remoteCursor, cursor))])
  }

  function RecordConflict(s: Store, peer: PeerId, remote: Remote): (r: (Store, nat))
    ensures r.1 < |r.0.conflicts| && IsOpen(r.0.conflicts[r.1], peer, remote.key)
  {
    var local := Lookup(s, remote.key);
    match FindOpen(s.conflicts, peer, remote.key)
    case Some(id) =>
      (s.(conflicts := s.conflicts[id := s.conflicts[id].(local := local, remote := remote)]), id)
    case None =>
      (s.(conflicts := s.conflicts + [Conflict(peer, remote.key, local, remote, None)]), |s.conflicts|)
  }

  /** A remote deletion keeps the payload that the row had. */
  function RemoteRow(s: Store, r: Remote): Entity
    requires ValidRemote(r)
  {
    var payload :=
      if !r.tombstone then r.payload.value
      else if r.key in s.entities then s.entities[r.key].payload
      else Obj(map[]);
    Entity(r.revision, payload, r.tombstone)
  }

  function WriteRemote(s: Store, r: Remote): Store
    requires ValidRemote(r)
  {
    s.(entities := s.entities[r.key := RemoteRow(s, r)])
  }

  function ApplyRemote(s: Store, peer: PeerId, cursor: nat, r: Remote): (Store, ApplyStatus)
    requires ValidRemote(r)
  {
    var s := EnsurePeer(s, peer);
    if Pending(s, peer, r.key) || FindOpen(s.conflicts, peer, r.key).Some? || Diverged(s, r) then
      var (recorded, id) := RecordConflict(s, peer, r);
      (AdvanceRemote(recorded, peer, cursor), Conflicted(id))
    else if r.key in s.entities && s.entities[r.key].revision > r.revision then
      (AdvanceRemote(s, peer, cursor), IgnoredStale)
    else
      (AdvanceRemote(WriteRemote(s, r), peer, cursor), Applied)
  }

  // ---- sync.resolve_conflict ----

  /** Writes a row and appends it to the outbox, unless the outbox already holds that revision of the entity. */
  function WriteLocal(s: Store, key: Key, e: Entity): Result<Store, SyncError> {
    if HasRevision(s.outbox, key, e.revision) then Err(DuplicateRevision)
    else Ok(s.(entities := s.entities[key := e], outbox := s.outbox + [LocalChange(key, e)]))
  }

  function CloseConflict(s: Store, id: nat, resolution: Resolution): Store
    requires id < |s.conflicts|
  {
    s.(conflicts := s.conflicts[id := s.conflicts[id].(resolution := Some(resolution))])
  }

  /** The row that `keep_local` writes: the recorded local content at the revision after the remote one. */
  function KeptRow(c: Conflict): Entity
    requires c.local.Some?
  {
    c.local.value.(revision := c.remote.revision + 1)
  }

  function Resolve(s: Store, peer: PeerId, id: nat, resolution: Resolution): Result<Store, SyncError>
    requires forall i :: 0 <= i < |s.conflicts| ==> ValidRemote(s.conflicts[i].remote)
  {
    if id >= |s.conflicts| || s.conflicts[id].peer != peer || s.conflicts[id].resolution.Some? then
      Err(NoSuchConflict)
    else
      var c := s.conflicts[id];
      match resolution
      case UseRemote => Ok(CloseConflict(WriteRemote(s, c.remote), id, UseRemote))
      case KeepLocal =>
        if c.local.None? then Err(LocalEntityMissing)
        else
          match WriteLocal(s, c.key, KeptRow(c))
          case Ok(written) => Ok(CloseConflict(written, id, KeepLocal))
          case Err(e) => Err(e)
  }

  // ---- entities.put and entities.delete ----

  predicate ExpectedMismatch(s: Store, key: Key, expected: Option<nat>) {
    expected.Some? && expected.value != (if key in s.entities then s.entities[key].revision else 0)
  }

  function WriteEntity(s: Store, key: Key, payload: Json, expected: Option<nat>): Result<Store, SyncError> {
    if !payload.Obj? then Err(NotAnObject)
    else if ExpectedMismatch(s, key, expected) then Err(RevisionConflict)
    else if key in s.entities && !s.entities[key].tombstone && s.entities[key].payload == payload then Ok(s)
    else
      WriteLocal(s, key, Entity(if key in s.entities then s.entities[key].revision + 1 else 1, payload, false))
  }

  function TombstoneEntity(s: Store, key: Key, expected: Option<nat>): Result<Store, SyncError> {
    if key !in s.entities then Err(NoSuchEntity)
    else if ExpectedMismatch(s, key, expected) then Err(RevisionConflict)
    else
      var e := s.entities[key];
      WriteLocal(s, key, Entity(e.revision + 1, e.payload, true))
  }
}
