/** Recording rejected pushes and acknowledging answered ones keeps the invariant. */
module SyncSettleSteps {
  import opened Outcomes
  import opened SyncTypes
  import opened SyncPayload
  import opened SyncStore
  import opened SyncServer
  import opened SyncSystem
  import opened SyncInvariant
  import opened SyncLocalSteps
  import opened SyncServerSteps
  import opened SyncAgentSteps

  // ---- recording a conflict ----

  /** Recording a conflict changes nothing but the conflict table, where it leaves the remote entity open. */
  lemma {:induction false} RecordOutcome(s: Store, peer: PeerId, remote: Remote, t: Store)
    requires t == RecordConflict(s, peer, remote).0
    ensures t.peers == s.peers && t.entities == s.entities && t.outbox == s.outbox
    ensures |t.conflicts| >= |s.conflicts|
    ensures exists i ::
              0 <= i < |t.conflicts| && IsOpen(t.conflicts[i], peer, remote.key) && t.conflicts[i].remote == remote
    ensures forall i :: 0 <= i < |t.conflicts| ==>
              || (i < |s.conflicts| && t.conflicts[i] == s.conflicts[i])
              || (IsOpen(t.conflicts[i], peer, remote.key) && t.conflicts[i].remote == remote
                  && t.conflicts[i].local == Lookup(s, remote.key))
    ensures forall i :: 0 <= i < |s.conflicts| ==>
              (t.conflicts[i] == s.conflicts[i]
               || (IsOpen(s.conflicts[i], peer, remote.key) && IsOpen(t.conflicts[i], peer, remote.key)))
  {
    var id := RecordConflict(s, peer, remote).1;
    assert IsOpen(t.conflicts[id], peer, remote.key) && t.conflicts[id].remote == remote;
  }

  lemma {:induction false} RecordKey(s: Store, log: seq<ServerRow>, peer: PeerId, remote: Remote, t: Store, k: Key)
    requires KeyOk(s, log, peer, k)
    requires k == remote.key ==> RemoteKnown(log, PeerOf(s, peer).remoteCursor, k, remote)
    requires t.conflicts == RecordConflict(s, peer, remote).0.conflicts
    requires PeerOf(t, peer) == PeerOf(s, peer) && t.entities == s.entities && t.outbox == s.outbox
    ensures KeyOk(t, log, peer, k)
    ensures k == remote.key ==> HasOpen(t, peer, k)
  {
    hide RemoteKnown, FromServer, FromOutbox, UpTo;
    RecordOutcome(s, peer, remote, RecordConflict(s, peer, remote).0);
    if HasOpen(s, peer, k) {
      var i :| 0 <= i < |s.conflicts| && IsOpen(s.conflicts[i], peer, k);
      assert IsOpen(t.conflicts[i], peer, k);
    } else if k != remote.key {
      RowFrame(s, t, log, PeerOf(s, peer), k);
    }
  }

  /** Recording keeps at most one open conflict per peer and entity. */
  lemma {:induction false} RecordKeepsOneOpen(s: Store, peer: PeerId, remote: Remote)
    requires OneOpen(s.conflicts)
    ensures OneOpen(RecordConflict(s, peer, remote).0.conflicts)
  {
    var t := RecordConflict(s, peer, remote).0.conflicts;
    forall i, j | 0 <= i < j < |t| && t[i].resolution.None? && t[j].resolution.None?
      ensures t[i].peer != t[j].peer || t[i].key != t[j].key
    {
      if j == |s.conflicts| {
        assert !IsOpen(s.conflicts[i], peer, remote.key);
      } else {
        assert t[i].peer == s.conflicts[i].peer && t[i].key == s.conflicts[i].key && s.conflicts[i].resolution.None?;
        assert t[j].peer == s.conflicts[j].peer && t[j].key == s.conflicts[j].key && s.conflicts[j].resolution.None?;
      }
    }
  }

  lemma {:induction false} RecordStore(cfg: Config, s: Store, remote: Remote, t: Store)
    requires StoreOk(cfg, s)
    requires ValidRemote(remote) && Trimmed(remote.key) && (!remote.tombstone ==> Plain(remote.payload.value))
    requires t.conflicts == RecordConflict(s, cfg.peer, remote).0.conflicts
    requires PeerOf(t, cfg.peer) == PeerOf(s, cfg.peer) && t.entities == s.entities && t.outbox == s.outbox
    ensures StoreOk(cfg, t)
  {
    RecordOutcome(s, cfg.peer, remote, RecordConflict(s, cfg.peer, remote).0);
    RecordKeepsOneOpen(s, cfg.peer, remote);
    hide OneOpen, Homeward;
  }

  /** The remote form of an entity whose payload names no other entity and which the daemon accepts. */
  lemma {:induction false} RemoteIsPlain(key: Key, e: ServerEntity)
    requires Addressed(key, e.payload) && ValidRemote(RemoteOf(key, e))
    ensures RemoteOf(key, e).key == key && RemoteOf(key, e).revision == e.revision
            && RemoteOf(key, e).tombstone == e.tombstone
    ensures !e.tombstone ==> Plain(RemoteOf(key, e).payload.value)
  {
  }

  /** A change whose push was rejected is still pending, so handing its entity to the daemon records a conflict. */
  lemma {:induction false} RejectedIsRecorded(s: Store, peer: PeerId, seen: nat, remote: Remote, index: nat, t: Store)
    requires ValidRemote(remote)
    requires PeerOf(s, peer).localCursor <= index < |s.outbox| && s.outbox[index].key == remote.key
    requires seen <= PeerOf(s, peer).remoteCursor
    requires t == ApplyRemote(s, peer, seen, remote).0
    ensures ApplyRemote(s, peer, seen, remote).1.Conflicted?
    ensures t.conflicts == RecordConflict(s, peer, remote).0.conflicts
    ensures PeerOf(t, peer) == PeerOf(s, peer) && t.entities == s.entities && t.outbox == s.outbox
  {
    var u := EnsurePeer(s, peer);
    assert Pending(u, peer, remote.key) by {
      assert u.outbox[index].key == remote.key;
    }
    assert RecordConflict(u, peer, remote).0.conflicts == RecordConflict(s, peer, remote).0.conflicts;
  }

  lemma {:induction false} SettlingParts(cfg: Config, s: System)
    requires Inv(cfg, s) && s.agent.Settling?
    ensures var b := s.agent.batch; var p := PeerOf(s.store, cfg.peer); var c := b.base + s.agent.next + 1;
            && BatchOk(cfg, s, b) && |b.answers| == |b.page| && s.agent.next < |b.page|
            && p.localCursor == b.base + s.agent.next && c <= |s.store.outbox|
            && b.page[s.agent.next] == s.store.outbox[c - 1] && s.store.outbox[c - 1].key in s.store.entities
            && Trimmed(s.store.outbox[c - 1].key)
            && OperationId(cfg.device, c) in s.server.operations
            && AnswerOk(s.server.log, p, c, s.store.outbox[c - 1], b.answers[s.agent.next])
            && (s.agent.recorded ==> Settled(s.store, s.server.log, cfg.peer, c - 1))
  {
    hide ServerOk, RemoteCursorOk, KeyOk, Settled, AnswerOk;
    var b := s.agent.batch;
    assert AgentOk(cfg, s);
    assert BatchOk(cfg, s, b);
    assert b.page[s.agent.next] == s.store.outbox[b.base + s.agent.next];
    assert Answered(cfg, s.server, b.base + s.agent.next + 1, b.answers[s.agent.next]);
  }

  lemma {:induction false} RejectionKnown(cfg: Config, s: System, e: ServerEntity, remote: Remote)
    requires Inv(cfg, s) && MustOpen(s.agent)
    requires s.agent.batch.answers[s.agent.next].current == Some(e)
    requires remote == RemoteOf(s.agent.batch.page[s.agent.next].key, e) && ValidRemote(remote)
    ensures remote.key == s.agent.batch.page[s.agent.next].key && Trimmed(remote.key)
    ensures RemoteKnown(s.server.log, PeerOf(s.store, cfg.peer).remoteCursor, remote.key, remote)
  {
    hide Inv;
    SettlingParts(cfg, s);
    Parts(cfg, s);
    var key := s.agent.batch.page[s.agent.next].key;
    assert Logged(s.server.log, key, e);
    LoggedIsAddressed(s.server, key, e);
    RemoteIsPlain(key, e);
    var i :| 0 <= i < |s.server.log| && s.server.log[i].key == key && s.server.log[i].entity == e;
  }

  lemma {:induction false} LoggedIsAddressed(v: Server, key: Key, e: ServerEntity)
    requires ServerOk(v) && Logged(v.log, key, e)
    ensures Addressed(key, e.payload)
  {
    hide Addressed;
    var i :| 0 <= i < |v.log| && v.log[i].key == key && v.log[i].entity == e;
    assert RowFits(v, v.log[i]);
  }

  lemma {:induction false} RecordKept(cfg: Config, s: System, remote: Remote, t: Store)
    requires StoreOk(cfg, s.store) && forall k :: KeyOk(s.store, s.server.log, cfg.peer, k)
    requires !(s.agent.Settling? && s.agent.recorded)
    requires ValidRemote(remote) && Trimmed(remote.key) && (!remote.tombstone ==> Plain(remote.payload.value))
    requires RemoteKnown(s.server.log, PeerOf(s.store, cfg.peer).remoteCursor, remote.key, remote)
    requires t.conflicts == RecordConflict(s.store, cfg.peer, remote).0.conflicts
    requires PeerOf(t, cfg.peer) == PeerOf(s.store, cfg.peer) && t.entities == s.store.entities
             && t.outbox == s.store.outbox
    ensures Kept(cfg, s, t)
  {
    hide KeyOk, StoreOk, RemoteKnown;
    RecordStore(cfg, s.store, remote, t);
    forall k ensures KeyOk(t, s.server.log, cfg.peer, k) {
      RecordKey(s.store, s.server.log, cfg.peer, remote, t, k);
    }
  }

  lemma {:induction false} Parts(cfg: Config, s: System)
    requires Inv(cfg, s)
    ensures ServerOk(s.server) && StoreOk(cfg, s.store) && RemoteCursorOk(cfg, s) && OperationsOk(cfg, s)
            && AgentOk(cfg, s)
    ensures forall key :: KeyOk(s.store, s.server.log, cfg.peer, key)
  {
  }

  lemma {:induction false} RecordedAgent(cfg: Config, s: System, t: Store, a: Agent)
    requires AgentOk(cfg, s) && s.agent.Settling? && a == Settling(s.agent.batch, s.agent.next, true)
    requires s.store == t && HasOpen(t, cfg.peer, s.agent.batch.page[s.agent.next].key)
    ensures AgentOk(cfg, s.(agent := a))
  {
    var b := s.agent.batch;
    assert BatchOk(cfg, s.(agent := a), b);
    assert b.page[s.agent.next] == t.outbox[b.base + s.agent.next];
  }

  lemma {:induction false} OpenConflictKeeps(cfg: Config, s: System)
    requires Inv(cfg, s) && MustOpen(s.agent)
    ensures Inv(cfg, DoOpenConflict(cfg, s))
  {
    hide Inv, KeyOk, StoreOk, OperationsOk, AgentOk, ServerOk, RemoteKnown, BatchOk, RemoteOf, NamedId, IsDaemonKind;
    var a := s.agent;
    var current := a.batch.answers[a.next].current;
    if current.None? || !Acceptable(a.batch.page[a.next].key, current.value) {
      AbortKeeps(cfg, s);
    } else {
      var remote := RemoteOf(a.batch.page[a.next].key, current.value);
      var t := ApplyRemote(s.store, cfg.peer, a.batch.seen, remote).0;
      SettlingParts(cfg, s);
      RejectionKnown(cfg, s, current.value, remote);
      Parts(cfg, s);
      LoggedIsAddressed(s.server, a.batch.page[a.next].key, current.value);
      RemoteIsPlain(a.batch.page[a.next].key, current.value);
      SeenBound(cfg, s, a.batch);
      RejectedIsRecorded(s.store, cfg.peer, a.batch.seen, remote, a.batch.base + a.next, t);
      Parts(cfg, s);
      RecordKept(cfg, s, remote, t);
      LocalFrame(cfg, s, t);
      RecordKey(s.store, s.server.log, cfg.peer, remote, t, remote.key);
      var u := s.(store := t);
      Parts(cfg, u);
      RecordedAgent(cfg, u, t, Settling(a.batch, a.next, true));
      SentSoFar(cfg, u);
      AgentMoves(cfg, u, Settling(a.batch, a.next, true));
    }
  }

  lemma {:induction false} SeenBound(cfg: Config, s: System, b: Batch)
    requires BatchOk(cfg, s, b)
    ensures b.seen <= PeerOf(s.store, cfg.peer).remoteCursor
  {
  }

  // ---- acknowledging a cursor ----

  lemma {:induction false} AckRow(s: Store, log: seq<ServerRow>, p: Peer, key: Key, answer: Answer, recorded: bool,
                                  peer: PeerId)
    requires p == PeerOf(s, peer) && p.localCursor < |s.outbox|
    requires AnswerOk(log, p, p.localCursor + 1, s.outbox[p.localCursor], answer)
    requires answer.Accepted? || recorded
    requires recorded ==> Settled(s, log, peer, p.localCursor)
    requires KeyOk(s, log, peer, key) && !HasOpen(s, peer, key)
    ensures RowOk(s, log, p.(localCursor := p.localCursor + 1), key)
  {
    if key in s.entities && FromOutbox(s, p.localCursor, key) {
      var i :| && p.localCursor <= i < |s.outbox| && s.outbox[i] == LocalChange(key, s.entities[key])
               && forall j :: i < j < |s.outbox| ==> s.outbox[j].key != key;
      if i == p.localCursor && answer.Accepted? {
        assert Awaiting(log, p.remoteCursor, key, s.entities[key]);
      }
    }
  }

  lemma {:induction false} AckKey(s: Store, log: seq<ServerRow>, peer: PeerId, key: Key, answer: Answer, recorded: bool,
                                  t: Store)
    requires PeerOf(s, peer).localCursor < |s.outbox|
    requires AnswerOk(log, PeerOf(s, peer), PeerOf(s, peer).localCursor + 1, s.outbox[PeerOf(s, peer).localCursor],
                      answer)
    requires answer.Accepted? || recorded
    requires recorded ==> Settled(s, log, peer, PeerOf(s, peer).localCursor)
    requires KeyOk(s, log, peer, key)
    requires t == Acknowledge(s, peer, PeerOf(s, peer).localCursor + 1)
    ensures KeyOk(t, log, peer, key)
  {
    var p := PeerOf(s, peer).(localCursor := PeerOf(s, peer).localCursor + 1);
    assert PeerOf(t, peer) == p;
    if HasOpen(s, peer, key) {
      assert HasOpen(t, peer, key);
    } else {
      AckRow(s, log, PeerOf(s, peer), key, answer, recorded, peer);
      RowFrame(s, t, log, p, key);
    }
  }

  lemma {:induction false} AckOperations(cfg: Config, s: System, t: System)
    requires OperationsOk(cfg, s)
    requires OperationId(cfg.device, PeerOf(s.store, cfg.peer).localCursor + 1) in s.server.operations
    requires t.server == s.server && t.store.outbox == s.store.outbox
    requires PeerOf(t.store, cfg.peer) ==
               PeerOf(s.store, cfg.peer).(localCursor := PeerOf(s.store, cfg.peer).localCursor + 1)
    requires SentWithin(cfg, s.server, SentLimit(t.agent, PeerOf(t.store, cfg.peer).localCursor))
    ensures OperationsOk(cfg, t)
  {
    var p := PeerOf(s.store, cfg.peer);
    forall c: nat | OperationId(cfg.device, c) in t.server.operations
      ensures AnswerOk(t.server.log, PeerOf(t.store, cfg.peer), c, t.store.outbox[c - 1],
                       t.server.operations[OperationId(cfg.device, c)].1)
    {
      assert AnswerOk(s.server.log, p, c, s.store.outbox[c - 1], s.server.operations[OperationId(cfg.device, c)].1);
    }
    hide AnswerOk;
  }

  lemma {:induction false} AckBatch(cfg: Config, s: System, t: System, b: Batch)
    requires BatchOk(cfg, s, b)
    requires t.server == s.server && t.store.outbox == s.store.outbox
    requires PeerOf(t.store, cfg.peer).remoteCursor == PeerOf(s.store, cfg.peer).remoteCursor
    ensures BatchOk(cfg, t, b)
  {
  }

  lemma {:induction false} AckStore(cfg: Config, s: System, t: System)
    requires StoreOk(cfg, s.store) && RemoteCursorOk(cfg, s)
    requires t.server == s.server && t.handled == s.handled
    requires PeerOf(s.store, cfg.peer).localCursor < |s.store.outbox|
    requires t.store == Acknowledge(s.store, cfg.peer, PeerOf(s.store, cfg.peer).localCursor + 1)
    ensures StoreOk(cfg, t.store) && RemoteCursorOk(cfg, t)
    ensures PeerOf(t.store, cfg.peer) ==
              PeerOf(s.store, cfg.peer).(localCursor := PeerOf(s.store, cfg.peer).localCursor + 1)
  {
  }

  lemma {:induction false} AckNextKeeps(cfg: Config, s: System)
    requires Inv(cfg, s) && MustAck(s.agent)
    ensures Inv(cfg, DoAckNext(cfg, s))
  {
    hide KeyOk, StoreOk, OperationsOk, ServerOk, BatchOk, AnswerOk, Settled, RemoteCursorOk;
    var a := s.agent;
    var t := DoAckNext(cfg, s);
    SettlingParts(cfg, s);
    SentSoFar(cfg, s);
    AckStore(cfg, s, t);
    forall key ensures KeyOk(t.store, t.server.log, cfg.peer, key) {
      AckKey(s.store, s.server.log, cfg.peer, key, a.batch.answers[a.next], a.recorded, t.store);
    }
    AckOperations(cfg, s, t);
    AckBatch(cfg, s, t, a.batch);
  }
}
