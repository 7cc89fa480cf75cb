/** What every step of the synchronisation protocol keeps. */
module SyncInvariant {
  import opened Outcomes
  import opened SyncTypes
  import opened SyncPayload
  import opened SyncStore
  import opened SyncServer
  import opened SyncSystem

  /** Keys without surrounding white space, and payloads that name no other entity on the server. */
  predicate WellFormed(cfg: Config, step: Step) {
    match step
    case Edit(key, payload, _) => Trimmed(key) && (payload.Obj? ==> Homeward(cfg.ids, key, payload))
    case ForeignPush(change, _) => Addressed(change.key, change.payload)
    case ServerPublish(key, payload, _) => Addressed(key, Some(payload))
    case ServerTombstone(key, _) => Trimmed(key)
    case _ => true
  }

  // ---- the server ----

  predicate Logged(log: seq<ServerRow>, key: Key, e: ServerEntity) {
    exists i :: 0 <= i < |log| && log[i].key == key && log[i].entity == e
  }

  ghost predicate CursorsAscend(log: seq<ServerRow>) {
    forall i, j :: 0 <= i < j < |log| ==> log[i].cursor < log[j].cursor
  }

  ghost predicate RevisionsAscend(log: seq<ServerRow>) {
    forall i, j :: 0 <= i < j < |log| && log[i].key == log[j].key ==> log[i].entity.revision < log[j].entity.revision
  }

  predicate RowFits(v: Server, row: ServerRow) {
    && row.cursor >= 1 && row.entity.revision >= 1 && Addressed(row.key, row.entity.payload)
    && row.key in v.entities && row.entity.revision <= v.entities[row.key].revision
  }

  /** Log cursors ascend, an entity's revisions ascend along the log, and its current state is its last log row. */
  ghost predicate ServerOk(v: Server) {
    && CursorsAscend(v.log)
    && RevisionsAscend(v.log)
    && (forall i :: 0 <= i < |v.log| ==> RowFits(v, v.log[i]))
    && (forall key :: key in v.entities ==> Logged(v.log, key, v.entities[key]))
  }

  // ---- one entity, on the device and in the server's log ----

  /** No revision above `revision` has been delivered. */
  ghost predicate UpTo(log: seq<ServerRow>, cursor: nat, key: Key, revision: nat) {
    forall i :: 0 <= i < |log| && log[i].key == key && log[i].cursor <= cursor ==> log[i].entity.revision <= revision
  }

  /** The local row shows what this server revision says. */
  predicate Shows(e: Entity, kind: string, v: ServerEntity) {
    && e.revision == v.revision
    && e.tombstone == v.tombstone
    && (!e.tombstone ==> v.payload.Some? && e.payload == ToLocal(kind, v.payload.value))
  }

  /** The row is a server revision, and no later one has been delivered. */
  ghost predicate FromServer(log: seq<ServerRow>, cursor: nat, key: Key, e: Entity) {
    && (exists i :: 0 <= i < |log| && log[i].key == key && Shows(e, key.kind, log[i].entity))
    && UpTo(log, cursor, key, e.revision)
  }

  /** The server revision that a pushed row became: it shows that row, unless the payload does not come back
      unchanged. */
  predicate Echoes(e: Entity, kind: string, v: ServerEntity) {
    e.revision == v.revision && (e.tombstone || Steady(e.payload) ==> Shows(e, kind, v))
  }

  /** The row was pushed, and the server revision that it became has not been delivered. */
  ghost predicate Awaiting(log: seq<ServerRow>, cursor: nat, key: Key, e: Entity) {
    exists i :: 0 <= i < |log| && log[i].key == key && log[i].cursor > cursor && Echoes(e, key.kind, log[i].entity)
  }

  /** The row is the last outbox change of its entity, and that change is not acknowledged. */
  ghost predicate FromOutbox(s: Store, acknowledged: nat, key: Key) {
    && key in s.entities
    && exists i ::
         && acknowledged <= i < |s.outbox| && s.outbox[i] == LocalChange(key, s.entities[key])
         && forall j :: i < j < |s.outbox| ==> s.outbox[j].key != key
  }

  /** The remote side of a conflict is a server revision, and no later one has been delivered. */
  ghost predicate RemoteKnown(log: seq<ServerRow>, cursor: nat, key: Key, r: Remote) {
    && (exists i :: 0 <= i < |log| && log[i].key == key && r == RemoteOf(key, log[i].entity))
    && UpTo(log, cursor, key, r.revision)
  }

  predicate HasOpen(s: Store, peer: PeerId, key: Key) {
    exists i :: 0 <= i < |s.conflicts| && IsOpen(s.conflicts[i], peer, key)
  }

  ghost predicate RowOk(s: Store, log: seq<ServerRow>, p: Peer, key: Key) {
    if key in s.entities then
      || FromServer(log, p.remoteCursor, key, s.entities[key])
      || FromOutbox(s, p.localCursor, key)
      || Awaiting(log, p.remoteCursor, key, s.entities[key])
    else UpTo(log, p.remoteCursor, key, 0)
  }

  ghost predicate KeyOk(s: Store, log: seq<ServerRow>, peer: PeerId, key: Key) {
    var p := PeerOf(s, peer);
    && (forall i :: 0 <= i < |s.conflicts| && IsOpen(s.conflicts[i], peer, key)
                    ==> RemoteKnown(log, p.remoteCursor, key, s.conflicts[i].remote))
    && (HasOpen(s, peer, key) || RowOk(s, log, p, key))
  }

  // ---- the daemon's tables ----

  predicate ConflictOk(ids: IdScheme, c: Conflict) {
    && ValidRemote(c.remote) && c.remote.key == c.key && Trimmed(c.key)
    && (c.local.Some? ==> Homeward(ids, c.key, c.local.value.payload))
    && (!c.remote.tombstone ==> Plain(c.remote.payload.value))
  }

  /** The unique index on open conflicts. */
  ghost predicate OneOpen(conflicts: seq<Conflict>) {
    forall i, j :: 0 <= i < j < |conflicts| && conflicts[i].resolution.None? && conflicts[j].resolution.None?
                   ==> conflicts[i].peer != conflicts[j].peer || conflicts[i].key != conflicts[j].key
  }

  ghost predicate StoreOk(cfg: Config, s: Store) {
    && PeerOf(s, cfg.peer).localCursor <= |s.outbox|
    && (forall key :: key in s.entities ==> Homeward(cfg.ids, key, s.entities[key].payload))
    && (forall i :: 0 <= i < |s.outbox| ==>
          && Homeward(cfg.ids, s.outbox[i].key, s.outbox[i].entity.payload)
          && s.outbox[i].entity.revision >= 1 && s.outbox[i].key in s.entities)
    && (forall i :: 0 <= i < |s.conflicts| ==> ConflictOk(cfg.ids, s.conflicts[i]))
    && OneOpen(s.conflicts)
  }

  // ---- the stored answers to this device's pushes ----

  ghost predicate AnswerOk(log: seq<ServerRow>, p: Peer, cursor: nat, c: LocalChange, a: Answer) {
    match a
    case Accepted(e) =>
      && Logged(log, c.key, e) && Echoes(c.entity, c.key.kind, e)
      && (cursor > p.localCursor ==> Awaiting(log, p.remoteCursor, c.key, c.entity))
    case Rejected(Some(e)) =>
      && Logged(log, c.key, e)
      && (cursor > p.localCursor ==> UpTo(log, p.remoteCursor, c.key, e.revision))
    case Rejected(None) => true
  }

  ghost predicate OperationsOk(cfg: Config, s: System) {
    var p := PeerOf(s.store, cfg.peer);
    && (forall c: nat :: 1 <= c <= p.localCursor ==> OperationId(cfg.device, c) in s.server.operations)
    && (forall c: nat :: OperationId(cfg.device, c) in s.server.operations ==>
          && 1 <= c <= |s.store.outbox| && c <= SentLimit(s.agent, p.localCursor)
          && ChangeForServer(cfg, s.store.outbox[c - 1], c).Ok?
          && Recorded(ChangeForServer(cfg, s.store.outbox[c - 1], c).value) ==
               s.server.operations[OperationId(cfg.device, c)].0
          && AnswerOk(s.server.log, p, c, s.store.outbox[c - 1], s.server.operations[OperationId(cfg.device, c)].1))
  }

  // ---- the agent ----

  /** Nothing beyond this cursor has been sent: in particular, everything sent is acknowledged before a pull. */
  function SentLimit(a: Agent, acknowledged: nat): nat {
    match a
    case Idle => acknowledged + PAGE
    case NextPush(round) => if round == 0 then acknowledged + PAGE else acknowledged
    case Sending(b) => b.base + |b.page|
    case Settling(b, _, _) => b.base + |b.page|
    case NextPull(_) => acknowledged
    case Applying(_, _, _) => acknowledged
  }

  predicate Answered(cfg: Config, v: Server, cursor: nat, a: Answer) {
    OperationId(cfg.device, cursor) in v.operations && v.operations[OperationId(cfg.device, cursor)].1 == a
  }

  ghost predicate BatchOk(cfg: Config, s: System, b: Batch) {
    && 1 <= |b.page| <= PAGE && |b.answers| <= |b.page|
    && b.base + |b.page| <= |s.store.outbox|
    && b.page == s.store.outbox[b.base..b.base + |b.page|]
    && b.seen <= PeerOf(s.store, cfg.peer).remoteCursor
    && forall i :: 0 <= i < |b.answers| ==> Answered(cfg, s.server, b.base + i + 1, b.answers[i])
  }

  ghost predicate RowSettled(s: Store, log: seq<ServerRow>, peer: PeerId, index: nat, key: Key) {
    || (key in s.entities && FromServer(log, PeerOf(s, peer).remoteCursor, key, s.entities[key]))
    || exists j :: index < j < |s.outbox| && s.outbox[j].key == key
  }

  /** Acknowledging this outbox index leaves its entity accounted for. */
  ghost predicate Settled(s: Store, log: seq<ServerRow>, peer: PeerId, index: nat)
    requires index < |s.outbox|
  {
    HasOpen(s, peer, s.outbox[index].key) || RowSettled(s, log, peer, index, s.outbox[index].key)
  }

  /** The pulled rows are a part of the log, and the next one is the first that is not delivered. */
  ghost predicate ApplyingOk(log: seq<ServerRow>, cursor: nat, rows: seq<ServerRow>, done: nat) {
    var k := FirstAfter(log, cursor);
    && done < |rows| && done <= k && k - done + |rows| <= |log|
    && rows == log[k - done..k - done + |rows|]
  }

  ghost predicate AgentOk(cfg: Config, s: System) {
    var p := PeerOf(s.store, cfg.peer);
    match s.agent
    case Sending(b) => BatchOk(cfg, s, b) && p.localCursor == b.base && |b.answers| < |b.page|
    case Settling(b, next, recorded) =>
      && BatchOk(cfg, s, b) && |b.answers| == |b.page| && next < |b.page| && p.localCursor == b.base + next
      && (recorded ==> Settled(s.store, s.server.log, cfg.peer, b.base + next))
    case Applying(_, rows, done) => ApplyingOk(s.server.log, p.remoteCursor, rows, done)
    case _ => true
  }

  ghost predicate RemoteCursorOk(cfg: Config, s: System) {
    var p := PeerOf(s.store, cfg.peer);
    var log := s.server.log;
    && (if log == [] then p.remoteCursor == 0 else p.remoteCursor <= log[|log| - 1].cursor)
    && forall i :: 0 <= i < |log| && log[i].cursor <= p.remoteCursor ==> log[i].cursor in s.handled
  }

  ghost predicate Inv(cfg: Config, s: System) {
    && ServerOk(s.server)
    && StoreOk(cfg, s.store)
    && RemoteCursorOk(cfg, s)
    && OperationsOk(cfg, s)
    && AgentOk(cfg, s)
    && forall key :: KeyOk(s.store, s.server.log, cfg.peer, key)
  }

  lemma {:induction false} InitialOk(cfg: Config)
    ensures Inv(cfg, INITIAL)
  {
  }
}
