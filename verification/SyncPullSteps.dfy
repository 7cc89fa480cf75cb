/** Pulling and applying the server's changes keeps the invariant. */
module SyncPullSteps {
  import opened Outcomes
  import opened SyncTypes
  import opened SyncPayload
  import opened SyncStore
  import opened SyncServer
  import opened SyncSystem
  import opened SyncInvariant
  import opened SyncLocalSteps
  import opened SyncServerSteps
  import opened SyncAgentSteps
  import opened SyncSettleSteps

  lemma {:induction false} FetchRemoteKeeps(cfg: Config, s: System)
    requires Inv(cfg, s) && s.agent.NextPull?
    ensures Inv(cfg, DoFetchRemote(cfg, s))
  {
    hide Inv;
    SentSoFar(cfg, s);
    SentLimitBound(cfg, s);
    AgentMoves(cfg, s, DoFetchRemote(cfg, s).agent);
  }

  // ---- delivering the next row ----

  /** With ascending cursors, moving the cursor to the first undelivered row delivers that row and no other. */
  lemma {:induction false} DeliversOne(log: seq<ServerRow>, cursor: nat, k: nat)
    requires CursorsAscend(log) && k == FirstAfter(log, cursor) && k < |log|
    ensures forall i :: 0 <= i < |log| ==> (log[i].cursor <= log[k].cursor <==> i <= k)
    ensures forall i :: 0 <= i < |log| ==> (log[i].cursor <= cursor <==> i < k)
    ensures FirstAfter(log, log[k].cursor) == k + 1
  {
    var n := FirstAfter(log, log[k].cursor);
    assert n > k by {
      assert forall i :: 0 <= i <= k ==> log[i].cursor <= log[k].cursor;
    }
    assert k + 1 < |log| ==> log[k].cursor < log[k + 1].cursor;
  }

  lemma {:induction false} UpToAfter(log: seq<ServerRow>, cursor: nat, k: nat, key: Key, revision: nat)
    requires CursorsAscend(log) && k == FirstAfter(log, cursor) && k < |log|
    requires UpTo(log, cursor, key, revision)
    requires log[k].key == key ==> log[k].entity.revision <= revision
    ensures UpTo(log, log[k].cursor, key, revision)
  {
    DeliversOne(log, cursor, k);
  }

  /** Everything delivered before the next row of an entity is an older revision of it. */
  lemma {:induction false} NextIsNewest(log: seq<ServerRow>, cursor: nat, k: nat)
    requires CursorsAscend(log) && RevisionsAscend(log) && k == FirstAfter(log, cursor) && k < |log|
    ensures UpTo(log, log[k].cursor, log[k].key, log[k].entity.revision)
  {
    DeliversOne(log, cursor, k);
  }

  /** Entities other than the delivered one are untouched. */
  lemma {:induction false} OtherKey(s: Store, log: seq<ServerRow>, peer: PeerId, k: nat, t: Store, key: Key)
    requires CursorsAscend(log) && k == FirstAfter(log, PeerOf(s, peer).remoteCursor) && k < |log|
    requires KeyOk(s, log, peer, key) && log[k].key != key
    requires PeerOf(t, peer) == PeerOf(s, peer).(remoteCursor := log[k].cursor)
    requires t.outbox == s.outbox && Lookup(t, key) == Lookup(s, key)
    requires forall i :: 0 <= i < |t.conflicts| ==>
               (i < |s.conflicts| && t.conflicts[i] == s.conflicts[i]) || t.conflicts[i].key != key
    requires forall i :: 0 <= i < |s.conflicts| ==>
               i < |t.conflicts| && (t.conflicts[i] == s.conflicts[i] || s.conflicts[i].key != key)
    ensures KeyOk(t, log, peer, key)
  {
    var cursor := PeerOf(s, peer).remoteCursor;
    forall i | 0 <= i < |t.conflicts| && IsOpen(t.conflicts[i], peer, key)
      ensures RemoteKnown(log, log[k].cursor, key, t.conflicts[i].remote)
    {
      assert RemoteKnown(log, cursor, key, s.conflicts[i].remote);
      UpToAfter(log, cursor, k, key, s.conflicts[i].remote.revision);
    }
    if HasOpen(s, peer, key) {
      var i :| 0 <= i < |s.conflicts| && IsOpen(s.conflicts[i], peer, key);
      assert IsOpen(t.conflicts[i], peer, key);
    } else {
      RowFrame(s, t, log, PeerOf(s, peer), key);
      RowUpTo(t, log, PeerOf(s, peer), k, key);
    }
  }

  lemma {:induction false} RowUpTo(s: Store, log: seq<ServerRow>, p: Peer, k: nat, key: Key)
    requires CursorsAscend(log) && k == FirstAfter(log, p.remoteCursor) && k < |log|
    requires RowOk(s, log, p, key) && log[k].key != key
    ensures RowOk(s, log, p.(remoteCursor := log[k].cursor), key)
  {
    hide Echoes;
    if key !in s.entities {
      UpToAfter(log, p.remoteCursor, k, key, 0);
    } else if Awaiting(log, p.remoteCursor, key, s.entities[key]) {
      StillAwaiting(log, p.remoteCursor, k, key, s.entities[key]);
    } else if FromServer(log, p.remoteCursor, key, s.entities[key]) {
      UpToAfter(log, p.remoteCursor, k, key, s.entities[key].revision);
    }
  }

  /** A row goes on waiting unless its own revision is delivered. */
  lemma {:induction false} StillAwaiting(log: seq<ServerRow>, cursor: nat, k: nat, key: Key, e: Entity)
    requires CursorsAscend(log) && k == FirstAfter(log, cursor) && k < |log|
    requires Awaiting(log, cursor, key, e) && (log[k].key == key ==> log[k].entity.revision != e.revision)
    ensures Awaiting(log, log[k].cursor, key, e)
  {
    DeliversOne(log, cursor, k);
    var i :| 0 <= i < |log| && log[i].key == key && log[i].cursor > cursor && Echoes(e, key.kind, log[i].entity);
    assert i != k;
  }

  lemma {:induction false} NextKnown(log: seq<ServerRow>, cursor: nat, k: nat)
    requires CursorsAscend(log) && RevisionsAscend(log) && k == FirstAfter(log, cursor) && k < |log|
    ensures RemoteKnown(log, log[k].cursor, log[k].key, RemoteOf(log[k].key, log[k].entity))
  {
    NextIsNewest(log, cursor, k);
  }

  /** Without a pending change or an open conflict the row is a server revision, or was pushed and became one. So a
      delivered revision diverges from it only if it is the row's own, coming back, and the payload is not steady. */
  lemma {:induction false} NeverDiverges(s: Store, log: seq<ServerRow>, peer: PeerId, k: nat)
    requires RevisionsAscend(log) && k < |log| && Addressed(log[k].key, log[k].entity.payload)
    requires ValidRemote(RemoteOf(log[k].key, log[k].entity))
    requires KeyOk(s, log, peer, log[k].key)
    requires !HasOpen(s, peer, log[k].key) && !Pending(s, peer, log[k].key)
    ensures Diverged(s, RemoteOf(log[k].key, log[k].entity)) ==>
              var e := s.entities[log[k].key];
              !e.tombstone && !Steady(e.payload) && log[k].cursor > PeerOf(s, peer).remoteCursor
  {
    hide Steady, FromOutbox;
    var key := log[k].key;
    RowIsServers(s, log, peer, key);
    if key in s.entities && s.entities[key].revision == log[k].entity.revision {
      if FromServer(log, PeerOf(s, peer).remoteCursor, key, s.entities[key]) {
        var i :| 0 <= i < |log| && log[i].key == key && Shows(s.entities[key], key.kind, log[i].entity);
        assert i == k;
      } else {
        var i :| 0 <= i < |log| && log[i].key == key && log[i].cursor > PeerOf(s, peer).remoteCursor
                 && Echoes(s.entities[key], key.kind, log[i].entity);
        assert i == k;
      }
    }
  }

  lemma {:induction false} StaleKey(s: Store, log: seq<ServerRow>, p: Peer, k: nat, key: Key)
    requires CursorsAscend(log) && k == FirstAfter(log, p.remoteCursor) && k < |log| && log[k].key == key
    requires key in s.entities && log[k].entity.revision < s.entities[key].revision
    requires FromServer(log, p.remoteCursor, key, s.entities[key])
             || Awaiting(log, p.remoteCursor, key, s.entities[key])
    ensures RowOk(s, log, p.(remoteCursor := log[k].cursor), key)
  {
    if FromServer(log, p.remoteCursor, key, s.entities[key]) {
      UpToAfter(log, p.remoteCursor, k, key, s.entities[key].revision);
    } else {
      StillAwaiting(log, p.remoteCursor, k, key, s.entities[key]);
    }
  }

  lemma {:induction false} AppliedKey(s: Store, log: seq<ServerRow>, cursor: nat, k: nat, e: Entity)
    requires CursorsAscend(log) && RevisionsAscend(log) && k == FirstAfter(log, cursor) && k < |log|
    requires Addressed(log[k].key, log[k].entity.payload) && ValidRemote(RemoteOf(log[k].key, log[k].entity))
    requires e == RemoteRow(s, RemoteOf(log[k].key, log[k].entity))
    ensures FromServer(log, log[k].cursor, log[k].key, e)
  {
    NextIsNewest(log, cursor, k);
    assert Shows(e, log[k].key.kind, log[k].entity);
  }

  /** What applying the next row does to the daemon's tables. */
  lemma {:induction false} ApplyOutcome(s: Store, peer: PeerId, cursor: nat, r: Remote, t: Store)
    requires ValidRemote(r) && cursor > PeerOf(s, peer).remoteCursor
    requires t == ApplyRemote(s, peer, cursor, r).0
    ensures PeerOf(t, peer) == PeerOf(s, peer).(remoteCursor := cursor) && t.outbox == s.outbox
    ensures Pending(s, peer, r.key) || HasOpen(s, peer, r.key) || Diverged(s, r) ==>
              t.entities == s.entities && t.conflicts == RecordConflict(s, peer, r).0.conflicts
    ensures !(Pending(s, peer, r.key) || HasOpen(s, peer, r.key) || Diverged(s, r)) ==>
              && t.conflicts == s.conflicts
              && t.entities == if r.key in s.entities && s.entities[r.key].revision > r.revision then s.entities
                               else s.entities[r.key := RemoteRow(s, r)]
  {
    var u := EnsurePeer(s, peer);
    assert Pending(u, peer, r.key) <==> Pending(s, peer, r.key);
    assert HasOpen(s, peer, r.key) <==> FindOpen(u.conflicts, peer, r.key).Some?;
  }

  lemma {:induction false} DeliveredKey(s: Store, log: seq<ServerRow>, peer: PeerId, k: nat, t: Store)
    requires CursorsAscend(log) && RevisionsAscend(log) && k == FirstAfter(log, PeerOf(s, peer).remoteCursor)
             && k < |log|
    requires Addressed(log[k].key, log[k].entity.payload) && ValidRemote(RemoteOf(log[k].key, log[k].entity))
    requires KeyOk(s, log, peer, log[k].key) && OneOpen(s.conflicts)
    requires t == ApplyRemote(s, peer, log[k].cursor, RemoteOf(log[k].key, log[k].entity)).0
    ensures KeyOk(t, log, peer, log[k].key)
  {
    var key := log[k].key;
    var r := RemoteOf(key, log[k].entity);
    var cursor := PeerOf(s, peer).remoteCursor;
    ApplyOutcome(s, peer, log[k].cursor, r, t);
    NextKnown(log, cursor, k);
    hide RemoteKnown, FromServer, FromOutbox, Awaiting, ValidRemote, Shows;
    if Pending(s, peer, key) || HasOpen(s, peer, key) || Diverged(s, r) {
      RecordedKey(s, log, peer, k, t);
    } else {
      RowIsServers(s, log, peer, key);
      if key in s.entities && s.entities[key].revision > r.revision {
        StaleKey(t, log, PeerOf(s, peer), k, key);
      } else {
        AppliedKey(s, log, cursor, k, t.entities[key]);
      }
    }
  }

  lemma {:induction false} RowIsServers(s: Store, log: seq<ServerRow>, peer: PeerId, key: Key)
    requires KeyOk(s, log, peer, key) && !HasOpen(s, peer, key) && !Pending(s, peer, key)
    ensures key in s.entities ==>
              || FromServer(log, PeerOf(s, peer).remoteCursor, key, s.entities[key])
              || Awaiting(log, PeerOf(s, peer).remoteCursor, key, s.entities[key])
  {
    hide Echoes;
  }

  lemma {:induction false} RecordedKey(s: Store, log: seq<ServerRow>, peer: PeerId, k: nat, t: Store)
    requires CursorsAscend(log) && RevisionsAscend(log) && k == FirstAfter(log, PeerOf(s, peer).remoteCursor)
             && k < |log|
    requires OneOpen(s.conflicts)
    requires RemoteOf(log[k].key, log[k].entity).key == log[k].key
    requires PeerOf(t, peer) == PeerOf(s, peer).(remoteCursor := log[k].cursor)
    requires t.conflicts == RecordConflict(s, peer, RemoteOf(log[k].key, log[k].entity)).0.conflicts
    ensures KeyOk(t, log, peer, log[k].key)
  {
    var key := log[k].key;
    var r := RemoteOf(key, log[k].entity);
    RecordOutcome(s, peer, r, RecordConflict(s, peer, r).0);
    NextKnown(log, PeerOf(s, peer).remoteCursor, k);
    RecordKeepsOneOpen(s, peer, r);
    var id :| 0 <= id < |t.conflicts| && IsOpen(t.conflicts[id], peer, key) && t.conflicts[id].remote == r;
    forall i | 0 <= i < |t.conflicts| && IsOpen(t.conflicts[i], peer, key)
      ensures RemoteKnown(log, log[k].cursor, key, t.conflicts[i].remote)
    {
      assert i == id;
    }
  }

  lemma {:induction false} RewrittenStore(cfg: Config, s: Store, key: Key, e: Entity, t: Store)
    requires StoreOk(cfg, s) && Homeward(cfg.ids, key, e.payload)
    requires PeerOf(t, cfg.peer).localCursor == PeerOf(s, cfg.peer).localCursor && t.outbox == s.outbox
             && t.conflicts == s.conflicts
    requires t.entities == s.entities || t.entities == s.entities[key := e]
    ensures StoreOk(cfg, t)
  {
    hide OneOpen, ConflictOk, Homeward;
  }

  lemma {:induction false} RowComesHome(cfg: Config, s: Store, key: Key)
    requires StoreOk(cfg, s) && key in s.entities
    ensures Homeward(cfg.ids, key, s.entities[key].payload)
  {
    hide OneOpen, ConflictOk, Homeward;
  }

  lemma {:induction false} AppliedStore(cfg: Config, s: Store, cursor: nat, r: Remote, t: Store)
    requires StoreOk(cfg, s)
    requires ValidRemote(r) && Trimmed(r.key) && (!r.tombstone ==> Plain(r.payload.value))
    requires cursor > PeerOf(s, cfg.peer).remoteCursor
    requires t == ApplyRemote(s, cfg.peer, cursor, r).0
    ensures StoreOk(cfg, t)
  {
    hide StoreOk, Plain, ValidRemote, Homeward;
    ApplyOutcome(s, cfg.peer, cursor, r, t);
    if r.key in s.entities {
      RowComesHome(cfg, s, r.key);
    }
    RemoteRowComesHome(cfg, s, r);
    if Pending(s, cfg.peer, r.key) || HasOpen(s, cfg.peer, r.key) || Diverged(s, r) {
      var u := s.(conflicts := t.conflicts);
      RecordStore(cfg, s, r, u);
      RewrittenStore(cfg, u, r.key, RemoteRow(s, r), t);
    } else {
      RewrittenStore(cfg, s, r.key, RemoteRow(s, r), t);
    }
  }

  lemma {:induction false} DeliveredOtherKey(s: Store, log: seq<ServerRow>, peer: PeerId, k: nat, t: Store, key: Key)
    requires CursorsAscend(log) && k == FirstAfter(log, PeerOf(s, peer).remoteCursor) && k < |log|
    requires Addressed(log[k].key, log[k].entity.payload) && ValidRemote(RemoteOf(log[k].key, log[k].entity))
    requires KeyOk(s, log, peer, key) && key != log[k].key
    requires t == ApplyRemote(s, peer, log[k].cursor, RemoteOf(log[k].key, log[k].entity)).0
    ensures KeyOk(t, log, peer, key)
  {
    hide KeyOk, Trim, ToLocal;
    var r := RemoteOf(log[k].key, log[k].entity);
    ApplyOutcome(s, peer, log[k].cursor, r, t);
    RecordOutcome(s, peer, r, RecordConflict(s, peer, r).0);
    OtherKey(s, log, peer, k, t, key);
  }

  lemma {:induction false} AppliedOperations(cfg: Config, s: System, t: System)
    requires OperationsOk(cfg, s) && s.agent.Applying?
    requires t.server == s.server && t.store.outbox == s.store.outbox
    requires PeerOf(t.store, cfg.peer).localCursor == PeerOf(s.store, cfg.peer).localCursor
    requires t.agent.Idle? || t.agent.NextPull? || t.agent.Applying?
    ensures OperationsOk(cfg, t)
  {
    var p := PeerOf(s.store, cfg.peer);
    forall c: nat | OperationId(cfg.device, c) in t.server.operations
      ensures AnswerOk(t.server.log, PeerOf(t.store, cfg.peer), c, t.store.outbox[c - 1],
                       t.server.operations[OperationId(cfg.device, c)].1)
    {
      assert AnswerOk(s.server.log, p, c, s.store.outbox[c - 1], s.server.operations[OperationId(cfg.device, c)].1);
    }
    hide AnswerOk;
  }

  lemma {:induction false} AppliedCursor(cfg: Config, s: System, t: System, k: nat)
    requires RemoteCursorOk(cfg, s) && CursorsAscend(s.server.log)
    requires k == FirstAfter(s.server.log, PeerOf(s.store, cfg.peer).remoteCursor) && k < |s.server.log|
    requires t.server == s.server && PeerOf(t.store, cfg.peer).remoteCursor == s.server.log[k].cursor
    requires s.handled.Keys + {s.server.log[k].cursor} <= t.handled.Keys
    ensures RemoteCursorOk(cfg, t)
  {
    var log := s.server.log;
    DeliversOne(log, PeerOf(s.store, cfg.peer).remoteCursor, k);
    hide FirstAfter, CursorsAscend;
    forall i | 0 <= i < |log| && log[i].cursor <= log[k].cursor
      ensures log[i].cursor in t.handled
    {
      assert i < k ==> log[i].cursor in s.handled.Keys;
      assert i == k ==> log[i].cursor in s.handled.Keys + {log[k].cursor};
    }
    assert log[k].cursor <= log[|log| - 1].cursor;
  }

  lemma {:induction false} AppliedRows(log: seq<ServerRow>, cursor: nat, rows: seq<ServerRow>, done: nat)
    requires CursorsAscend(log) && ApplyingOk(log, cursor, rows, done)
    ensures var k := FirstAfter(log, cursor);
            && k < |log| && rows[done] == log[k]
            && (done + 1 < |rows| ==> ApplyingOk(log, log[k].cursor, rows, done + 1))
  {
    DeliversOne(log, cursor, FirstAfter(log, cursor));
  }

  lemma {:induction false} DeliveredKeys(cfg: Config, s: Store, v: Server, k: nat, t: Store)
    requires ServerOk(v) && StoreOk(cfg, s) && forall key :: KeyOk(s, v.log, cfg.peer, key)
    requires k == FirstAfter(v.log, PeerOf(s, cfg.peer).remoteCursor) && k < |v.log|
    requires ValidRemote(RemoteOf(v.log[k].key, v.log[k].entity))
    requires t == ApplyRemote(s, cfg.peer, v.log[k].cursor, RemoteOf(v.log[k].key, v.log[k].entity)).0
    ensures StoreOk(cfg, t) && forall key :: KeyOk(t, v.log, cfg.peer, key)
  {
    hide StoreOk, KeyOk, CursorsAscend, RevisionsAscend, OneOpen, ApplyRemote;
    assert RowFits(v, v.log[k]);
    OneOpenIn(cfg, s);
    RemoteIsPlain(v.log[k].key, v.log[k].entity);
    AppliedStore(cfg, s, v.log[k].cursor, RemoteOf(v.log[k].key, v.log[k].entity), t);
    forall key ensures KeyOk(t, v.log, cfg.peer, key) {
      if key == v.log[k].key {
        DeliveredKey(s, v.log, cfg.peer, k, t);
      } else {
        DeliveredOtherKey(s, v.log, cfg.peer, k, t, key);
      }
    }
  }

  lemma {:induction false} ApplyNextKeeps(cfg: Config, s: System)
    requires Inv(cfg, s) && s.agent.Applying? && s.agent.done < |s.agent.rows|
    ensures Inv(cfg, DoApplyNext(cfg, s))
  {
    hide Inv, StoreOk, OperationsOk, RemoteCursorOk, KeyOk, ApplyingOk, ServerOk, ApplyRemote, ValidRemote, FirstAfter;
    hide RemoteOf, NamedId, IsDaemonKind;
    var a := s.agent;
    var t := DoApplyNext(cfg, s);
    var log := s.server.log;
    Parts(cfg, s);
    CursorsAscendIn(s.server);
    AppliedRows(log, PeerOf(s.store, cfg.peer).remoteCursor, a.rows, a.done);
    var k := FirstAfter(log, PeerOf(s.store, cfg.peer).remoteCursor);
    var remote := RemoteOf(log[k].key, log[k].entity);
    if !Acceptable(log[k].key, log[k].entity) {
      AbortKeeps(cfg, s);
    } else {
      DeliveredKeys(cfg, s.store, s.server, k, t.store);
      ApplyMoves(s.store, cfg.peer, log[k].cursor, remote, t.store);
      AppliedOperations(cfg, s, t);
      AppliedCursor(cfg, s, t, k);
      Assembled(cfg, t);
    }
  }

  lemma {:induction false} ApplyMoves(s: Store, peer: PeerId, cursor: nat, r: Remote, t: Store)
    requires ValidRemote(r) && cursor > PeerOf(s, peer).remoteCursor
    requires t == ApplyRemote(s, peer, cursor, r).0
    ensures PeerOf(t, peer) == PeerOf(s, peer).(remoteCursor := cursor) && t.outbox == s.outbox
  {
    ApplyOutcome(s, peer, cursor, r, t);
  }

  lemma {:induction false} CursorsAscendIn(v: Server)
    requires ServerOk(v)
    ensures CursorsAscend(v.log)
  {
  }

  lemma {:induction false} OneOpenIn(cfg: Config, s: Store)
    requires StoreOk(cfg, s)
    ensures OneOpen(s.conflicts)
  {
  }

  lemma {:induction false} Assembled(cfg: Config, s: System)
    requires ServerOk(s.server) && StoreOk(cfg, s.store) && RemoteCursorOk(cfg, s) && OperationsOk(cfg, s)
             && AgentOk(cfg, s)
    requires forall key :: KeyOk(s.store, s.server.log, cfg.peer, key)
    ensures Inv(cfg, s)
  {
  }
}
