/** The theorems about every run of the synchronisation protocol. */
module SyncConvergence {
  import opened Outcomes
  import opened SyncTypes
  import opened SyncPayload
  import opened SyncStore
  import opened SyncServer
  import opened SyncSystem
  import opened SyncInvariant
  import opened SyncLocalSteps
  import opened SyncServerSteps
  import opened SyncAgentSteps
  import opened SyncSettleSteps
  import opened SyncPullSteps

  lemma {:induction false} StepKeeps(cfg: Config, s: System, step: Step)
    requires Inv(cfg, s) && WellFormed(cfg, step)
    ensures Inv(cfg, Do(cfg, s, step))
  {
    hide Inv;
    var t := Do(cfg, s, step);
    match step
    case Edit(key, payload, expected) => EditKeeps(cfg, s, key, payload, expected, t);
    case Delete(key, expected) => DeleteKeeps(cfg, s, key, expected, t);
    case Decide(id, resolution) =>
      ConflictsAreValid(cfg, s);
      DecideKeeps(cfg, s, id, resolution, t);
    case ForeignPush(change, cursor) =>
      if t != s {
        ForeignPushKeeps(cfg, s, change, cursor, t);
      }
    case ServerPublish(key, payload, cursor) =>
      if t != s {
        PublishKeeps(cfg, s, key, payload, cursor, t);
      }
    case ServerTombstone(key, cursor) =>
      if t != s {
        TombstoneKeeps(cfg, s, key, cursor, t);
      }
    case BeginCycle =>
      if s.agent.Idle? {
        BeginKeeps(cfg, s);
      }
    case FetchOutbox =>
      if s.agent.NextPush? {
        FetchOutboxKeeps(cfg, s);
      }
    case SendNext(cursor) =>
      if s.agent.Sending? && |s.agent.batch.answers| < |s.agent.batch.page| && FreshCursor(s.server, cursor) {
        SendNextKeeps(cfg, s, cursor);
      }
    case OpenConflict =>
      if MustOpen(s.agent) {
        OpenConflictKeeps(cfg, s);
      }
    case AckNext =>
      if MustAck(s.agent) {
        AckNextKeeps(cfg, s);
      }
    case FetchRemote =>
      if s.agent.NextPull? {
        FetchRemoteKeeps(cfg, s);
      }
    case ApplyNext =>
      if s.agent.Applying? && s.agent.done < |s.agent.rows| {
        ApplyNextKeeps(cfg, s);
      }
    case Abort => AbortKeeps(cfg, s);
  }

  predicate WellFormedRun(cfg: Config, steps: seq<Step>) {
    forall i :: 0 <= i < |steps| ==> WellFormed(cfg, steps[i])
  }

  lemma {:induction false} RunKeeps(cfg: Config, s: System, steps: seq<Step>)
    requires Inv(cfg, s) && WellFormedRun(cfg, steps)
    ensures Inv(cfg, Run(cfg, s, steps))
  {
    hide Inv;
    if steps != [] {
      RunKeeps(cfg, s, steps[..|steps| - 1]);
      StepKeeps(cfg, Run(cfg, s, steps[..|steps| - 1]), steps[|steps| - 1]);
    }
  }

  // ---- convergence ----

  /** Nothing about the entity is on its way: its outbox changes are acknowledged, the server's log rows for it are
      delivered, and no conflict is open. */
  ghost predicate Quiescent(cfg: Config, s: System, key: Key) {
    && !Pending(s.store, cfg.peer, key)
    && !HasOpen(s.store, cfg.peer, key)
    && forall i :: 0 <= i < |s.server.log| && s.server.log[i].key == key
                   ==> s.server.log[i].cursor <= PeerOf(s.store, cfg.peer).remoteCursor
  }

  /** Device and server have the same revision of the entity, or neither has it; a live entity has the same payload. */
  predicate Agrees(s: System, key: Key) {
    && (key in s.store.entities <==> key in s.server.entities)
    && (key in s.store.entities ==> Shows(s.store.entities[key], key.kind, s.server.entities[key]))
  }

  lemma {:induction false} QuiescentAgrees(cfg: Config, s: System, key: Key)
    requires ServerOk(s.server) && KeyOk(s.store, s.server.log, cfg.peer, key)
    requires Quiescent(cfg, s, key)
    ensures Agrees(s, key)
  {
    var log := s.server.log;
    assert key in s.server.entities ==> Logged(log, key, s.server.entities[key]);
    hide Echoes;
    if key in s.store.entities {
      assert FromServer(log, PeerOf(s.store, cfg.peer).remoteCursor, key, s.store.entities[key]);
      var i :| 0 <= i < |log| && log[i].key == key && Shows(s.store.entities[key], key.kind, log[i].entity);
      assert RowFits(s.server, log[i]);
      var n :| 0 <= n < |log| && log[n].key == key && log[n].entity == s.server.entities[key];
      assert log[i].entity.revision == log[n].entity.revision;
      assert i == n;
    }
  }

  /** In every run, whatever the interleaving and wherever cycles abort, an entity with nothing on its way is the same
      on the device and on the server. */
  lemma {:induction false} Converges(cfg: Config, steps: seq<Step>, key: Key)
    requires WellFormedRun(cfg, steps)
    ensures var s := Run(cfg, INITIAL, steps); Quiescent(cfg, s, key) ==> Agrees(s, key)
  {
    InitialOk(cfg);
    RunKeeps(cfg, INITIAL, steps);
    var s := Run(cfg, INITIAL, steps);
    if Quiescent(cfg, s, key) {
      QuiescentAgrees(cfg, s, key);
    }
  }

  /** In every run at most one conflict is open per peer and entity. */
  lemma {:induction false} AtMostOneOpen(cfg: Config, steps: seq<Step>)
    requires WellFormedRun(cfg, steps)
    ensures OneOpen(Run(cfg, INITIAL, steps).store.conflicts)
  {
    InitialOk(cfg);
    RunKeeps(cfg, INITIAL, steps);
  }

  // ---- cursors ----

  /** In every run the server has answered every acknowledged outbox change, with exactly that change, and the daemon
      has applied, ignored or recorded every log row up to the remote cursor. */
  lemma {:induction false} CursorsAreEarned(cfg: Config, steps: seq<Step>)
    requires WellFormedRun(cfg, steps)
    ensures var s := Run(cfg, INITIAL, steps); var p := PeerOf(s.store, cfg.peer);
            && p.localCursor <= |s.store.outbox|
            && (forall c: nat :: 1 <= c <= p.localCursor ==>
                  && OperationId(cfg.device, c) in s.server.operations
                  && ChangeForServer(cfg, s.store.outbox[c - 1], c).Ok?
                  && s.server.operations[OperationId(cfg.device, c)].0
                     == Recorded(ChangeForServer(cfg, s.store.outbox[c - 1], c).value))
            && (forall i :: 0 <= i < |s.server.log| && s.server.log[i].cursor <= p.remoteCursor
                            ==> s.server.log[i].cursor in s.handled)
  {
    InitialOk(cfg);
    RunKeeps(cfg, INITIAL, steps);
  }

  predicate NotBehind(p: Peer, q: Peer) {
    p.localCursor <= q.localCursor && p.remoteCursor <= q.remoteCursor
  }

  lemma {:induction false} ApplyNeverRewinds(s: Store, peer: PeerId, cursor: nat, r: Remote)
    requires ValidRemote(r)
    ensures NotBehind(PeerOf(s, peer), PeerOf(ApplyRemote(s, peer, cursor, r).0, peer))
  {
  }

  lemma {:induction false} StepNeverRewinds(cfg: Config, s: System, step: Step)
    ensures NotBehind(PeerOf(s.store, cfg.peer), PeerOf(Do(cfg, s, step).store, cfg.peer))
  {
    hide ApplyRemote, ValidRemote, RemoteOf, ApplyChange, ChangeForServer, FindOpen;
    match step
    case OpenConflict =>
      if MustOpen(s.agent) && s.agent.batch.answers[s.agent.next].current.Some? {
        var remote := RemoteOf(s.agent.batch.page[s.agent.next].key, s.agent.batch.answers[s.agent.next].current.value);
        if ValidRemote(remote) {
          ApplyNeverRewinds(s.store, cfg.peer, s.agent.batch.seen, remote);
        }
      }
    case ApplyNext =>
      if s.agent.Applying? && s.agent.done < |s.agent.rows| {
        var row := s.agent.rows[s.agent.done];
        if ValidRemote(RemoteOf(row.key, row.entity)) {
          ApplyNeverRewinds(s.store, cfg.peer, row.cursor, RemoteOf(row.key, row.entity));
        }
      }
    case _ =>
  }

  /** Neither cursor ever decreases, from any state. */
  lemma {:induction false} CursorsNeverRewind(cfg: Config, s: System, steps: seq<Step>)
    ensures NotBehind(PeerOf(s.store, cfg.peer), PeerOf(Run(cfg, s, steps).store, cfg.peer))
  {
    if steps != [] {
      CursorsNeverRewind(cfg, s, steps[..|steps| - 1]);
      StepNeverRewinds(cfg, Run(cfg, s, steps[..|steps| - 1]), steps[|steps| - 1]);
    }
  }

  // ---- rejected pushes ----

  /** Handing a rejected change's server entity to the daemon leaves an open conflict that holds exactly that entity,
      and every local row as it was. */
  lemma {:induction false} HandOverOpens(cfg: Config, s: System, key: Key, e: ServerEntity, t: Store)
    requires Inv(cfg, s) && MustOpen(s.agent)
    requires key == s.agent.batch.page[s.agent.next].key && s.agent.batch.answers[s.agent.next].current == Some(e)
    requires Acceptable(key, e)
    requires t == DoOpenConflict(cfg, s).store
    ensures t.entities == s.store.entities && t.outbox == s.store.outbox
    ensures exists i ::
              && 0 <= i < |t.conflicts| && IsOpen(t.conflicts[i], cfg.peer, key)
              && t.conflicts[i].remote == RemoteOf(key, e)
  {
    hide Inv, BatchOk, Settled, ValidRemote, RemoteOf, NamedId, IsDaemonKind, Addressed, ServerOk, KeyOk, StoreOk,
         OperationsOk;
    var a := s.agent;
    SettlingParts(cfg, s);
    SeenBound(cfg, s, a.batch);
    Parts(cfg, s);
    LoggedIsAddressed(s.server, key, e);
    RemoteIsPlain(key, e);
    RejectedIsRecorded(s.store, cfg.peer, a.batch.seen, RemoteOf(key, e), a.batch.base + a.next, t);
    RecordOutcome(s.store, cfg.peer, RemoteOf(key, e), RecordConflict(s.store, cfg.peer, RemoteOf(key, e)).0);
  }

  /** In every run, a rejected change is acknowledged only after its hand-over, and at that moment its conflict is
      still open unless the user has decided it since: the row is then the server's, or a later change is pending. */
  lemma {:induction false} RejectionIsRecordedFirst(cfg: Config, steps: seq<Step>)
    requires WellFormedRun(cfg, steps)
    ensures var s := Run(cfg, INITIAL, steps); var a := s.agent;
            MustAck(a) && a.batch.answers[a.next].Rejected? ==>
              && a.batch.base + a.next < |s.store.outbox|
              && s.store.outbox[a.batch.base + a.next] == a.batch.page[a.next]
              && Settled(s.store, s.server.log, cfg.peer, a.batch.base + a.next)
  {
    hide Inv, Settled, Run, MustAck;
    InitialOk(cfg);
    RunKeeps(cfg, INITIAL, steps);
    AcknowledgedIsSettled(cfg, Run(cfg, INITIAL, steps));
  }

  lemma {:induction false} AcknowledgedIsSettled(cfg: Config, s: System)
    requires Inv(cfg, s)
    ensures var a := s.agent;
            MustAck(a) && a.batch.answers[a.next].Rejected? ==>
              && a.batch.base + a.next < |s.store.outbox|
              && s.store.outbox[a.batch.base + a.next] == a.batch.page[a.next]
              && Settled(s.store, s.server.log, cfg.peer, a.batch.base + a.next)
  {
    hide Inv, Settled, BatchOk, AnswerOk;
    if s.agent.Settling? {
      SettlingParts(cfg, s);
    }
  }
}
