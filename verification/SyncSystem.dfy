/** A device (daemon and agent), the control plane, and everybody else who edits the same user's metadata: one
    transition per call or transaction, in any interleaving. */
module SyncSystem {
  import opened Outcomes
  import opened SyncTypes
  import opened SyncPayload
  import opened SyncStore
  import opened SyncServer

  const ROUNDS := 5

  /** `clock` gives the creation time of the outbox row with a given cursor, in nanoseconds. */
  datatype Config = Config(peer: PeerId, device: nat, ids: IdScheme, clock: nat -> nat, policy: Policy)

  /** A page of the outbox, read when the local cursor was `base` and the remote cursor `seen`, and the answers so
      far. */
  datatype Batch = Batch(round: nat, base: nat, page: seq<LocalChange>, seen: nat, answers: seq<Answer>)

  /** Where the agent is in `synchronize_metadata_once`. */
  datatype Agent =
    | Idle
    | NextPush(round: nat)
    | Sending(batch: Batch)
    | Settling(batch: Batch, next: nat, recorded: bool)
    | NextPull(round: nat)
    | Applying(round: nat, rows: seq<ServerRow>, done: nat)

  /** `handled` records how the daemon answered each pulled change; nothing reads it. */
  datatype System = System(store: Store, server: Server, agent: Agent, handled: map<nat, ApplyStatus>)

  datatype Step =
    // the user, on this device
    | Edit(key: Key, payload: Json, expected: Option<nat>)
    | Delete(key: Key, expected: Option<nat>)
    | Decide(conflict: nat, resolution: Resolution)
    // other devices and the control plane itself
    | ForeignPush(change: SyncChange, cursor: nat)
    | ServerPublish(key: Key, payload: Json, cursor: nat)
    | ServerTombstone(key: Key, cursor: nat)
    // the agent
    | BeginCycle
    | FetchOutbox
    | SendNext(cursor: nat)
    | OpenConflict
    | AckNext
    | FetchRemote
    | ApplyNext
    | Abort

  const INITIAL := System(Store(map[], map[], [], []), Server(map[], [], map[]), Idle, map[])

  /** `local_change_for_server` for the outbox row with this cursor. */
  function ChangeForServer(cfg: Config, c: LocalChange, cursor: nat): Result<SyncChange, SyncError> {
    var operation := OperationId(cfg.device, cursor);
    var base := if c.entity.revision == 0 then 0 else c.entity.revision - 1;
    if c.entity.tombstone then Ok(SyncChange(operation, c.key, base, None, true, cfg.clock(cursor)))
    else
      match ToServer(cfg.ids, c.key.kind, c.key.id, c.entity.payload)
      case Ok(payload) => Ok(SyncChange(operation, c.key, base, Some(payload), false, cfg.clock(cursor)))
      case Err(e) => Err(e)
  }

  /** The entity as `apply_remote_entity` sends it and the daemon parses it: the id its payload names or else its own,
      trimmed, and the mapped payload. */
  function RemoteOf(key: Key, e: ServerEntity): Remote {
    var id := if NamedId(e.payload).Some? then NamedId(e.payload).value else key.id;
    var payload := if e.payload.Some? then Some(ToLocal(key.kind, e.payload.value)) else None;
    Remote(Key(Trim(key.kind), Trim(id)), e.revision, payload, e.tombstone)
  }

  /** Whether handing over an entity succeeds: the agent lists the entities of its type unless the payload names an id,
      and the daemon refuses to list other types and to take invalid entities. */
  predicate Acceptable(key: Key, e: ServerEntity) {
    (NamedId(e.payload).Some? || IsDaemonKind(key.kind)) && ValidRemote(RemoteOf(key, e))
  }

  /** Cursors are committed in ascending order. */
  predicate FreshCursor(v: Server, cursor: nat) {
    cursor >= 1 && (v.log != [] ==> cursor > v.log[|v.log| - 1].cursor)
  }

  function Edited(s: System, r: Result<Store, SyncError>): System {
    if r.Ok? then s.(store := r.value) else s
  }

  predicate DecideReady(s: System) {
    forall i :: 0 <= i < |s.store.conflicts| ==> ValidRemote(s.store.conflicts[i].remote)
  }

  function DoFetchOutbox(cfg: Config, s: System): System
    requires s.agent.NextPush?
  {
    var p := PeerOf(s.store, cfg.peer);
    var n := |s.store.outbox|;
    if s.agent.round >= ROUNDS || p.localCursor >= n then s.(agent := NextPull(0))
    else
      var page := s.store.outbox[p.localCursor..if p.localCursor + PAGE <= n then p.localCursor + PAGE else n];
      s.(agent := Sending(Batch(s.agent.round, p.localCursor, page, p.remoteCursor, [])))
  }

  /** The change can be mapped and passes the server's validation. */
  predicate Sendable(cfg: Config, c: LocalChange, cursor: nat) {
    var change := ChangeForServer(cfg, c, cursor);
    change.Ok? && ValidChange(cfg.policy, change.value)
  }

  /** The whole page is mapped and validated before any of it is applied. */
  predicate PageSendable(cfg: Config, b: Batch) {
    forall i :: 0 <= i < |b.page| ==> Sendable(cfg, b.page[i], b.base + i + 1)
  }

  /** The server handles the next change of the batch; the response arrives with the last one. */
  function DoSendNext(cfg: Config, s: System, cursor: nat): System
    requires s.agent.Sending? && |s.agent.batch.answers| < |s.agent.batch.page|
  {
    var b := s.agent.batch;
    var i := |b.answers|;
    var change := ChangeForServer(cfg, b.page[i], b.base + i + 1);
    if (i == 0 && !PageSendable(cfg, b)) || change.Err? then s.(agent := Idle)
    else
      match ApplyChange(cfg.policy, s.server, change.value, cursor)
      case Err(_) => s.(agent := Idle)
      case Ok((server, answer)) =>
        var batch := b.(answers := b.answers + [answer]);
        var agent := if |batch.answers| < |batch.page| then Sending(batch) else Settling(batch, 0, false);
        s.(server := server, agent := agent)
  }

  predicate MustOpen(a: Agent) {
    && a.Settling? && a.next < |a.batch.page| && a.next < |a.batch.answers|
    && a.batch.answers[a.next].Rejected? && !a.recorded
  }

  /** A rejected change hands the server's entity to the daemon before its cursor is acknowledged. */
  function DoOpenConflict(cfg: Config, s: System): System
    requires MustOpen(s.agent)
  {
    var a := s.agent;
    var current := a.batch.answers[a.next].current;
    if current.None? then s.(agent := Idle)
    else
      var remote := RemoteOf(a.batch.page[a.next].key, current.value);
      if !Acceptable(a.batch.page[a.next].key, current.value) then s.(agent := Idle)
      else s.(store := ApplyRemote(s.store, cfg.peer, a.batch.seen, remote).0,
                agent := Settling(a.batch, a.next, true))
  }

  predicate MustAck(a: Agent) {
    && a.Settling? && a.next < |a.batch.page| && a.next < |a.batch.answers|
    && (a.batch.answers[a.next].Accepted? || a.recorded)
  }

  function DoAckNext(cfg: Config, s: System): System
    requires MustAck(s.agent)
  {
    var a := s.agent;
    var agent := if a.next + 1 < |a.batch.page| then Settling(a.batch, a.next + 1, false)
                 else if |a.batch.page| < PAGE then NextPull(0)
                 else NextPush(a.batch.round + 1);
    s.(store := Acknowledge(s.store, cfg.peer, a.batch.base + a.next + 1), agent := agent)
  }

  function DoFetchRemote(cfg: Config, s: System): System
    requires s.agent.NextPull?
  {
    var rows := Pull(s.server, PeerOf(s.store, cfg.peer).remoteCursor);
    if s.agent.round >= ROUNDS || rows == [] then s.(agent := Idle)
    else s.(agent := Applying(s.agent.round, rows, 0))
  }

  function DoApplyNext(cfg: Config, s: System): System
    requires s.agent.Applying? && s.agent.done < |s.agent.rows|
  {
    var a := s.agent;
    var row := a.rows[a.done];
    var remote := RemoteOf(row.key, row.entity);
    if !Acceptable(row.key, row.entity) then s.(agent := Idle)
    else
      var (store, status) := ApplyRemote(s.store, cfg.peer, row.cursor, remote);
      var agent := if a.done + 1 < |a.rows| then Applying(a.round, a.rows, a.done + 1)
                   else if |a.rows| < PAGE then Idle
                   else NextPull(a.round + 1);
      s.(store := store, agent := agent, handled := s.handled[row.cursor := status])
  }

  /** One step. A step that is not enabled changes nothing. */
  function Do(cfg: Config, s: System, step: Step): System {
    match step
    case Edit(key, payload, expected) => Edited(s, WriteEntity(s.store, key, payload, expected))
    case Delete(key, expected) => Edited(s, TombstoneEntity(s.store, key, expected))
    case Decide(id, resolution) =>
      if DecideReady(s) then Edited(s, Resolve(s.store, cfg.peer, id, resolution)) else s
    case ForeignPush(change, cursor) =>
      if change.operation.device != cfg.device && ValidChange(cfg.policy, change) && FreshCursor(s.server, cursor) then
        var r := ApplyChange(cfg.policy, s.server, change, cursor);
        if r.Ok? then s.(server := r.value.0) else s
      else s
    case ServerPublish(key, payload, cursor) =>
      if FreshCursor(s.server, cursor) then s.(server := Publish(s.server, key, payload, cursor)) else s
    case ServerTombstone(key, cursor) =>
      if FreshCursor(s.server, cursor) then s.(server := PublishTombstone(s.server, key, cursor)) else s
    case BeginCycle => if s.agent.Idle? then s.(agent := NextPush(0)) else s
    case FetchOutbox => if s.agent.NextPush? then DoFetchOutbox(cfg, s) else s
    case SendNext(cursor) =>
      if s.agent.Sending? && |s.agent.batch.answers| < |s.agent.batch.page| && FreshCursor(s.server, cursor)
      then DoSendNext(cfg, s, cursor) else s
    case OpenConflict => if MustOpen(s.agent) then DoOpenConflict(cfg, s) else s
    case AckNext => if MustAck(s.agent) then DoAckNext(cfg, s) else s
    case FetchRemote => if s.agent.NextPull? then DoFetchRemote(cfg, s) else s
    case ApplyNext =>
      if s.agent.Applying? && s.agent.done < |s.agent.rows| then DoApplyNext(cfg, s) else s
    case Abort => s.(agent := Idle)
  }

  function Run(cfg: Config, s: System, steps: seq<Step>): System {
    if steps == [] then s else Do(cfg, Run(cfg, s, steps[..|steps| - 1]), steps[|steps| - 1])
  }
}
