/** The agent's steps, including an abort after any call, keep the invariant. */
module SyncAgentSteps {
  import opened Outcomes
  import opened SyncTypes
  import opened SyncPayload
  import opened SyncStore
  import opened SyncServer
  import opened SyncSystem
  import opened SyncInvariant
  import opened SyncLocalSteps
  import opened SyncServerSteps

  ghost predicate SentWithin(cfg: Config, v: Server, limit: nat) {
    forall c: nat :: OperationId(cfg.device, c) in v.operations ==> c <= limit
  }

  lemma {:induction false} SentSoFar(cfg: Config, s: System)
    requires Inv(cfg, s)
    ensures SentWithin(cfg, s.server, SentLimit(s.agent, PeerOf(s.store, cfg.peer).localCursor))
    ensures SentWithin(cfg, s.server, |s.store.outbox|)
  {
  }

  lemma {:induction false} AgentMoves(cfg: Config, s: System, a: Agent)
    requires Inv(cfg, s)
    requires AgentOk(cfg, s.(agent := a))
    requires SentWithin(cfg, s.server, SentLimit(a, PeerOf(s.store, cfg.peer).localCursor))
    ensures Inv(cfg, s.(agent := a))
  {
    hide ServerOk, StoreOk, KeyOk, AgentOk, AnswerOk;
    assert OperationsOk(cfg, s.(agent := a));
  }

  lemma {:induction false} SentLimitBound(cfg: Config, s: System)
    requires Inv(cfg, s)
    ensures var l := PeerOf(s.store, cfg.peer).localCursor; SentLimit(s.agent, l) <= l + PAGE
  {
  }

  lemma {:induction false} AbortKeeps(cfg: Config, s: System)
    requires Inv(cfg, s)
    ensures Inv(cfg, s.(agent := Idle))
  {
    hide Inv;
    SentSoFar(cfg, s);
    SentLimitBound(cfg, s);
    AgentMoves(cfg, s, Idle);
  }

  lemma {:induction false} BeginKeeps(cfg: Config, s: System)
    requires Inv(cfg, s) && s.agent.Idle?
    ensures Inv(cfg, s.(agent := NextPush(0)))
  {
    hide Inv;
    SentSoFar(cfg, s);
    AgentMoves(cfg, s, NextPush(0));
  }

  // ---- pushing ----

  lemma {:induction false} FetchOutboxKeeps(cfg: Config, s: System)
    requires Inv(cfg, s) && s.agent.NextPush?
    ensures Inv(cfg, DoFetchOutbox(cfg, s))
  {
    hide Inv;
    SentSoFar(cfg, s);
    AgentMoves(cfg, s, DoFetchOutbox(cfg, s).agent);
  }

  lemma {:induction false} BatchInOrder(cfg: Config, s: System)
    requires Inv(cfg, s) && s.agent.Sending?
    ensures BatchOk(cfg, s, s.agent.batch) && PeerOf(s.store, cfg.peer).localCursor == s.agent.batch.base
    ensures |s.agent.batch.answers| < |s.agent.batch.page|
  {
  }

  lemma {:induction false} BatchGrows(cfg: Config, s: System, b: Batch, answer: Answer)
    requires BatchOk(cfg, s, b) && |b.answers| < |b.page|
    requires Answered(cfg, s.server, b.base + |b.answers| + 1, answer)
    ensures BatchOk(cfg, s, b.(answers := b.answers + [answer]))
  {
  }

  lemma {:induction false} AnswerArrives(cfg: Config, s: System, answer: Answer, batch: Batch, a: Agent)
    requires Inv(cfg, s) && s.agent.Sending?
    requires Answered(cfg, s.server, s.agent.batch.base + |s.agent.batch.answers| + 1, answer)
    requires batch == s.agent.batch.(answers := s.agent.batch.answers + [answer])
    requires a == if |batch.answers| < |batch.page| then Sending(batch) else Settling(batch, 0, false)
    ensures Inv(cfg, s.(agent := a))
  {
    hide Inv;
    SentSoFar(cfg, s);
    BatchInOrder(cfg, s);
    BatchGrows(cfg, s, s.agent.batch, answer);
    assert BatchOk(cfg, s.(agent := a), batch);
    AgentMoves(cfg, s, a);
  }

  lemma {:induction false} OwnOperationStored(cfg: Config, s: System, c: nat, change: SyncChange, answer: Answer,
                                              v: Server)
    requires OperationsOk(cfg, s)
    requires 1 <= c <= |s.store.outbox| && c <= SentLimit(s.agent, PeerOf(s.store, cfg.peer).localCursor)
    requires ChangeForServer(cfg, s.store.outbox[c - 1], c) == Ok(change)
    requires OperationId(cfg.device, c) !in s.server.operations
    requires AnswerOk(s.server.log, PeerOf(s.store, cfg.peer), c, s.store.outbox[c - 1], answer)
    requires v == Remember(s.server, change, answer)
    ensures OperationsOk(cfg, s.(server := v))
  {
    hide AnswerOk, Recorded;
  }

  lemma {:induction false} BatchKeepsAnswers(cfg: Config, s: System, b: Batch, operation: OperationId,
                                             stored: (SyncChange, Answer), v: Server)
    requires BatchOk(cfg, s, b)
    requires operation !in s.server.operations
    requires v == s.server.(operations := s.server.operations[operation := stored])
    ensures BatchOk(cfg, s.(server := v), b)
  {
  }

  lemma {:induction false} OwnOperationKeeps(cfg: Config, s: System, change: SyncChange, answer: Answer)
    requires Inv(cfg, s) && s.agent.Sending?
    requires |s.agent.batch.answers| < |s.agent.batch.page|
    requires var b := s.agent.batch; var i := |b.answers|;
             && ChangeForServer(cfg, b.page[i], b.base + i + 1) == Ok(change)
             && AnswerOk(s.server.log, PeerOf(s.store, cfg.peer), b.base + i + 1, b.page[i], answer)
    requires change.operation !in s.server.operations
    ensures Inv(cfg, s.(server := Remember(s.server, change, answer)))
  {
    hide Recorded, AnswerOk, KeyOk, StoreOk, BatchOk, OperationsOk, ServerOk, RemoteCursorOk;
    var b := s.agent.batch;
    var c := b.base + |b.answers| + 1;
    var v := Remember(s.server, change, answer);
    NextToSend(cfg, s);
    OwnOperationStored(cfg, s, c, change, answer, v);
    BatchKeepsAnswers(cfg, s, b, change.operation, (Recorded(change), answer), v);
    RemoteCursorExtends(cfg, s, v);
    SameTables(s.server, v);
  }

  lemma {:induction false} SameTables(v: Server, w: Server)
    requires ServerOk(v) && w.log == v.log && w.entities == v.entities
    ensures ServerOk(w)
  {
  }

  /** A rejection names the current revision, and nothing later has been delivered. */
  lemma {:induction false} RejectionOk(cfg: Config, s: System, c: nat, change: LocalChange)
    requires ServerOk(s.server)
    ensures AnswerOk(s.server.log, PeerOf(s.store, cfg.peer), c, change, Rejected(CurrentEntity(s.server, change.key)))
  {
  }

  /** An accepted change becomes a server revision that echoes the local row. */
  lemma {:induction false} AcceptanceOk(cfg: Config, v: Server, p: Peer, c: nat, local: LocalChange, change: SyncChange,
                                        cursor: nat)
    requires local.entity.payload.Obj? && local.entity.revision >= 1 && cursor > p.remoteCursor
    requires ChangeForServer(cfg, local, c) == Ok(change)
    requires CurrentRevision(v, change.key) == change.base
    ensures var w := Commit(v, change.key, change.payload, change.tombstone, cursor);
            AnswerOk(w.log, p, c, local, Accepted(w.entities[change.key]))
  {
    var w := Commit(v, change.key, change.payload, change.tombstone, cursor);
    var e := w.entities[change.key];
    StoredRoundTrip(cfg.ids, local.key.kind, local.key.id, local.entity.payload);
    hide ToServer, ToLocal, Column, Plain;
    assert Echoes(local.entity, local.key.kind, e);
    assert w.log[|v.log|].key == change.key && w.log[|v.log|].entity == e && w.log[|v.log|].cursor > p.remoteCursor;
  }

  lemma {:induction false} NextToSend(cfg: Config, s: System)
    requires Inv(cfg, s) && s.agent.Sending?
    ensures var b := s.agent.batch; var i := |b.answers|;
            && i < |b.page| && b.base + i < |s.store.outbox| && b.page[i] == s.store.outbox[b.base + i]
            && Homeward(cfg.ids, b.page[i].key, b.page[i].entity.payload) && b.page[i].entity.revision >= 1
            && ServerOk(s.server)
  {
    assert AgentOk(cfg, s);
  }

  /** What is stored for an operation of this device is its change, up to what the operations table
      changes. */
  lemma {:induction false} StoredIsSent(cfg: Config, s: System, c: nat)
    requires Inv(cfg, s) && OperationId(cfg.device, c) in s.server.operations
    ensures 1 <= c <= |s.store.outbox| && ChangeForServer(cfg, s.store.outbox[c - 1], c).Ok?
    ensures Recorded(ChangeForServer(cfg, s.store.outbox[c - 1], c).value) ==
              s.server.operations[OperationId(cfg.device, c)].0
  {
    hide Recorded;
  }

  /** The server form of a change of this device: its operation, its base, and an object that names no other entity. */
  lemma {:induction false} ChangeShape(cfg: Config, c: LocalChange, cursor: nat)
    requires Homeward(cfg.ids, c.key, c.entity.payload)
    ensures var r := ChangeForServer(cfg, c, cursor);
            && r.Ok? && r.value.key == c.key && r.value.operation == OperationId(cfg.device, cursor)
            && r.value.base == (if c.entity.revision == 0 then 0 else c.entity.revision - 1)
            && r.value.timestamp == cfg.clock(cursor) && Addressed(c.key, r.value.payload)
            && (r.value.tombstone <==> r.value.payload.None?)
  {
    hide ToServer, Trim;
  }

  lemma {:induction false} AfterTheCursor(cfg: Config, s: System, cursor: nat)
    requires Inv(cfg, s) && FreshCursor(s.server, cursor)
    ensures cursor > PeerOf(s.store, cfg.peer).remoteCursor
  {
    hide ServerOk, StoreOk, OperationsOk, AgentOk, KeyOk;
  }

  lemma {:induction false} AcceptedKeeps(cfg: Config, s: System, change: SyncChange, cursor: nat)
    requires Inv(cfg, s) && s.agent.Sending? && |s.agent.batch.answers| < |s.agent.batch.page|
             && FreshCursor(s.server, cursor)
    requires ChangeForServer(cfg, s.agent.batch.page[|s.agent.batch.answers|],
                             s.agent.batch.base + |s.agent.batch.answers| + 1) == Ok(change)
    requires change.operation !in s.server.operations && CurrentRevision(s.server, change.key) == change.base
    ensures var w := Accept(cfg.policy, s.server, change, cursor);
            Inv(cfg, s.(server := Remember(w, change, Accepted(w.entities[change.key]))))
  {
    hide Inv, AnswerOk, ServerOk, ReactAll, ChangeForServer, Remember;
    var b := s.agent.batch;
    var c := b.base + |b.answers| + 1;
    NextToSend(cfg, s);
    ChangeShape(cfg, b.page[|b.answers|], c);
    var reactions := cfg.policy.reacts(s.server, change);
    ReactionsKeep(cfg, s, reactions, change.key, cursor);
    var r := s.(server := ReactAll(s.server, reactions, change.key, cursor));
    NextToSend(cfg, r);
    AfterTheCursor(cfg, r, cursor + |reactions|);
    AcceptanceOk(cfg, r.server, PeerOf(s.store, cfg.peer), c, b.page[|b.answers|], change, cursor + |reactions|);
    CommitKeeps(cfg, r, change.key, change.payload, change.tombstone, cursor + |reactions|);
    var w := r.(server := Accept(cfg.policy, s.server, change, cursor));
    OwnOperationKeeps(cfg, w, change, Accepted(w.server.entities[change.key]));
  }

  lemma {:induction false} SendNextKeeps(cfg: Config, s: System, cursor: nat)
    requires Inv(cfg, s) && s.agent.Sending? && |s.agent.batch.answers| < |s.agent.batch.page|
    requires FreshCursor(s.server, cursor)
    ensures Inv(cfg, DoSendNext(cfg, s, cursor))
  {
    hide Inv, AnswerOk, ServerOk, ReactAll, PageSendable, ChangeForServer, Remember, Accept;
    var b := s.agent.batch;
    var i := |b.answers|;
    var c := b.base + i + 1;
    NextToSend(cfg, s);
    ChangeShape(cfg, b.page[i], c);
    var change := ChangeForServer(cfg, b.page[i], c).value;
    var r := ApplyChange(cfg.policy, s.server, change, cursor);
    if (i == 0 && !PageSendable(cfg, b)) || r.Err? {
      AbortKeeps(cfg, s);
    } else {
      var u := s.(server := r.value.0);
      if change.operation in s.server.operations {
        assert u == s;
      } else if CurrentRevision(s.server, change.key) != change.base {
        RejectionOk(cfg, s, c, b.page[i]);
        OwnOperationKeeps(cfg, s, change, r.value.1);
      } else {
        AcceptedKeeps(cfg, s, change, cursor);
      }
      AnswerStored(cfg, s, change, cursor);
      AnswerArrives(cfg, u, r.value.1, b.(answers := b.answers + [r.value.1]), DoSendNext(cfg, s, cursor).agent);
      assert DoSendNext(cfg, s, cursor) == u.(agent := DoSendNext(cfg, s, cursor).agent);
    }
  }

  lemma {:induction false} AnswerStored(cfg: Config, s: System, change: SyncChange, cursor: nat)
    requires ApplyChange(cfg.policy, s.server, change, cursor).Ok?
    ensures var (v, answer) := ApplyChange(cfg.policy, s.server, change, cursor).value;
            change.operation in v.operations && v.operations[change.operation].1 == answer
  {
    hide ReactAll, Recorded;
  }
}
