/** What other devices and the control plane commit keeps the invariant. */
module SyncServerSteps {
  import opened Outcomes
  import opened SyncTypes
  import opened SyncPayload
  import opened SyncStore
  import opened SyncServer
  import opened SyncSystem
  import opened SyncInvariant

  lemma {:induction false} CommitEntities(v: Server, key: Key, payload: Option<Json>, tombstone: bool, cursor: nat,
                                          k: Key)
    requires forall k :: k in v.entities ==> Logged(v.log, k, v.entities[k])
    requires k in Commit(v, key, payload, tombstone, cursor).entities
    ensures Logged(Commit(v, key, payload, tombstone, cursor).log, k,
                   Commit(v, key, payload, tombstone, cursor).entities[k])
  {
    var w := Commit(v, key, payload, tombstone, cursor);
    if k == key {
      assert w.log[|v.log|].key == key && w.log[|v.log|].entity == w.entities[key];
    } else {
      LoggedExtends(v.log, w.log[|v.log|], k, v.entities[k]);
    }
  }

  lemma {:induction false} CommitRevisions(v: Server, key: Key, payload: Option<Json>, tombstone: bool, cursor: nat)
    requires RevisionsAscend(v.log) && forall i :: 0 <= i < |v.log| ==> RowFits(v, v.log[i])
    ensures RevisionsAscend(Commit(v, key, payload, tombstone, cursor).log)
  {
    hide Addressed;
  }

  lemma {:induction false} CommitRow(v: Server, key: Key, payload: Option<Json>, tombstone: bool, cursor: nat, i: nat)
    requires forall i :: 0 <= i < |v.log| ==> RowFits(v, v.log[i])
    requires cursor >= 1 && Addressed(key, payload) && i <= |v.log|
    ensures RowFits(Commit(v, key, payload, tombstone, cursor), Commit(v, key, payload, tombstone, cursor).log[i])
  {
    StoredIsAddressed(key, payload);
    hide Addressed, Stored;
    if i < |v.log| {
      assert Commit(v, key, payload, tombstone, cursor).log[i] == v.log[i];
    }
  }

  lemma {:induction false} CommitOk(v: Server, key: Key, payload: Option<Json>, tombstone: bool, cursor: nat)
    requires ServerOk(v) && FreshCursor(v, cursor) && Addressed(key, payload)
    ensures ServerOk(Commit(v, key, payload, tombstone, cursor))
  {
    hide Logged, RevisionsAscend, Addressed, RowFits;
    var w := Commit(v, key, payload, tombstone, cursor);
    CommitRevisions(v, key, payload, tombstone, cursor);
    forall k | k in w.entities ensures Logged(w.log, k, w.entities[k]) {
      CommitEntities(v, key, payload, tombstone, cursor, k);
    }
    forall i | 0 <= i < |w.log| ensures RowFits(w, w.log[i]) {
      CommitRow(v, key, payload, tombstone, cursor, i);
    }
  }

  lemma {:induction false} LoggedExtends(log: seq<ServerRow>, row: ServerRow, key: Key, e: ServerEntity)
    requires Logged(log, key, e)
    ensures Logged(log + [row], key, e)
  {
    var i :| 0 <= i < |log| && log[i].key == key && log[i].entity == e;
    assert (log + [row])[i].key == key;
  }

  lemma {:induction false} FromServerExtends(log: seq<ServerRow>, row: ServerRow, cursor: nat, key: Key, e: Entity)
    requires FromServer(log, cursor, key, e) && row.cursor > cursor
    ensures FromServer(log + [row], cursor, key, e)
  {
    var i :| 0 <= i < |log| && log[i].key == key && Shows(e, key.kind, log[i].entity);
    assert (log + [row])[i].key == key;
  }

  lemma {:induction false} AwaitingExtends(log: seq<ServerRow>, row: ServerRow, cursor: nat, key: Key, e: Entity)
    requires Awaiting(log, cursor, key, e)
    ensures Awaiting(log + [row], cursor, key, e)
  {
    hide Echoes;
    var i :| 0 <= i < |log| && log[i].key == key && log[i].cursor > cursor && Echoes(e, key.kind, log[i].entity);
    assert (log + [row])[i] == log[i];
  }

  lemma {:induction false} RemoteKnownExtends(log: seq<ServerRow>, row: ServerRow, cursor: nat, key: Key, r: Remote)
    requires RemoteKnown(log, cursor, key, r) && row.cursor > cursor
    ensures RemoteKnown(log + [row], cursor, key, r)
  {
    var i :| 0 <= i < |log| && log[i].key == key && r == RemoteOf(key, log[i].entity);
    assert (log + [row])[i].key == key;
  }

  lemma {:induction false} KeyExtends(s: Store, log: seq<ServerRow>, row: ServerRow, peer: PeerId, key: Key)
    requires KeyOk(s, log, peer, key) && row.cursor > PeerOf(s, peer).remoteCursor
    ensures KeyOk(s, log + [row], peer, key)
  {
    var cursor := PeerOf(s, peer).remoteCursor;
    forall i | 0 <= i < |s.conflicts| && IsOpen(s.conflicts[i], peer, key)
      ensures RemoteKnown(log + [row], cursor, key, s.conflicts[i].remote)
    {
      RemoteKnownExtends(log, row, cursor, key, s.conflicts[i].remote);
    }
    hide Echoes;
    if key in s.entities && FromServer(log, cursor, key, s.entities[key]) {
      FromServerExtends(log, row, cursor, key, s.entities[key]);
    } else if key in s.entities && Awaiting(log, cursor, key, s.entities[key]) {
      AwaitingExtends(log, row, cursor, key, s.entities[key]);
    }
  }

  lemma {:induction false} AnswerExtends(log: seq<ServerRow>, row: ServerRow, p: Peer, cursor: nat, c: LocalChange,
                                         a: Answer)
    requires AnswerOk(log, p, cursor, c, a) && row.cursor > p.remoteCursor
    ensures AnswerOk(log + [row], p, cursor, c, a)
  {
    hide Echoes, Awaiting;
    match a
    case Accepted(e) =>
      LoggedExtends(log, row, c.key, e);
      if cursor > p.localCursor {
        AwaitingExtends(log, row, p.remoteCursor, c.key, c.entity);
      }
    case Rejected(Some(e)) => LoggedExtends(log, row, c.key, e);
    case Rejected(None) =>
  }

  lemma {:induction false} SettledExtends(s: Store, log: seq<ServerRow>, row: ServerRow, peer: PeerId, index: nat)
    requires index < |s.outbox| && Settled(s, log, peer, index) && row.cursor > PeerOf(s, peer).remoteCursor
    ensures Settled(s, log + [row], peer, index)
  {
    var key := s.outbox[index].key;
    if key in s.entities && FromServer(log, PeerOf(s, peer).remoteCursor, key, s.entities[key]) {
      FromServerExtends(log, row, PeerOf(s, peer).remoteCursor, key, s.entities[key]);
    }
  }

  lemma {:induction false} FirstAfterExtends(log: seq<ServerRow>, row: ServerRow, after: nat)
    requires FirstAfter(log, after) < |log|
    ensures FirstAfter(log + [row], after) == FirstAfter(log, after)
  {
    if log[0].cursor <= after {
      FirstAfterExtends(log[1..], row, after);
      assert (log + [row])[1..] == log[1..] + [row];
    }
  }

  lemma {:induction false} ApplyingExtends(log: seq<ServerRow>, row: ServerRow, cursor: nat, rows: seq<ServerRow>,
                                           done: nat)
    requires ApplyingOk(log, cursor, rows, done)
    ensures ApplyingOk(log + [row], cursor, rows, done)
  {
    FirstAfterExtends(log, row, cursor);
  }

  /** The device's own operations are the same. */
  ghost predicate SameOperations(cfg: Config, v: Server, w: Server) {
    forall c: nat :: OperationId(cfg.device, c) in v.operations || OperationId(cfg.device, c) in w.operations ==>
      && OperationId(cfg.device, c) in v.operations && OperationId(cfg.device, c) in w.operations
      && v.operations[OperationId(cfg.device, c)] == w.operations[OperationId(cfg.device, c)]
  }

  ghost predicate Extends(s: System, v: Server, cursor: nat) {
    || v.log == s.server.log
    || (|v.log| == |s.server.log| + 1 && v.log == s.server.log + [v.log[|s.server.log|]]
        && v.log[|s.server.log|].cursor > cursor)
  }

  lemma {:induction false} OperationsExtend(cfg: Config, s: System, v: Server)
    requires OperationsOk(cfg, s)
    requires SameOperations(cfg, s.server, v) && Extends(s, v, PeerOf(s.store, cfg.peer).remoteCursor)
    ensures OperationsOk(cfg, s.(server := v))
  {
    var p := PeerOf(s.store, cfg.peer);
    forall c: nat | OperationId(cfg.device, c) in v.operations
      ensures AnswerOk(v.log, p, c, s.store.outbox[c - 1], v.operations[OperationId(cfg.device, c)].1)
    {
      if v.log != s.server.log {
        AnswerExtends(s.server.log, v.log[|s.server.log|], p, c, s.store.outbox[c - 1],
                      v.operations[OperationId(cfg.device, c)].1);
      }
    }
  }

  lemma {:induction false} BatchExtends(cfg: Config, s: System, v: Server, b: Batch)
    requires BatchOk(cfg, s, b)
    requires SameOperations(cfg, s.server, v)
    ensures BatchOk(cfg, s.(server := v), b)
  {
  }

  lemma {:induction false} BatchFits(cfg: Config, s: System, b: Batch)
    requires BatchOk(cfg, s, b)
    ensures b.base + |b.page| <= |s.store.outbox|
  {
  }

  lemma {:induction false} AgentExtends(cfg: Config, s: System, v: Server)
    requires AgentOk(cfg, s)
    requires SameOperations(cfg, s.server, v) && Extends(s, v, PeerOf(s.store, cfg.peer).remoteCursor)
    ensures AgentOk(cfg, s.(server := v))
  {
    hide BatchOk, Settled, SameOperations, ApplyingOk;
    match s.agent
    case Sending(b) => BatchExtends(cfg, s, v, b);
    case Settling(b, next, recorded) =>
      BatchExtends(cfg, s, v, b);
      BatchFits(cfg, s, b);
      if recorded && v.log != s.server.log {
        SettledExtends(s.store, s.server.log, v.log[|s.server.log|], cfg.peer, b.base + next);
      }
    case Applying(_, rows, done) =>
      if v.log != s.server.log {
        ApplyingExtends(s.server.log, v.log[|s.server.log|], PeerOf(s.store, cfg.peer).remoteCursor, rows, done);
      }
    case _ =>
  }

  lemma {:induction false} RemoteCursorExtends(cfg: Config, s: System, v: Server)
    requires RemoteCursorOk(cfg, s) && Extends(s, v, PeerOf(s.store, cfg.peer).remoteCursor)
    ensures RemoteCursorOk(cfg, s.(server := v))
  {
  }

  /** A server step that commits at most one row, none of it an operation of this device. */
  lemma {:induction false} ServerFrame(cfg: Config, s: System, v: Server)
    requires Inv(cfg, s) && ServerOk(v)
    requires SameOperations(cfg, s.server, v) && Extends(s, v, PeerOf(s.store, cfg.peer).remoteCursor)
    ensures Inv(cfg, s.(server := v))
  {
    hide StoreOk, SameOperations, OperationsOk, AgentOk, RemoteCursorOk, ServerOk, KeyOk;
    OperationsExtend(cfg, s, v);
    AgentExtends(cfg, s, v);
    RemoteCursorExtends(cfg, s, v);
    forall key ensures KeyOk(s.store, v.log, cfg.peer, key) {
      if v.log != s.server.log {
        KeyExtends(s.store, s.server.log, v.log[|s.server.log|], cfg.peer, key);
      }
    }
  }

  lemma {:induction false} CommitKeeps(cfg: Config, s: System, key: Key, payload: Option<Json>, tombstone: bool,
                                       cursor: nat)
    requires Inv(cfg, s) && FreshCursor(s.server, cursor) && Addressed(key, payload)
    ensures Inv(cfg, s.(server := Commit(s.server, key, payload, tombstone, cursor)))
  {
    CommitOk(s.server, key, payload, tombstone, cursor);
    ServerFrame(cfg, s, Commit(s.server, key, payload, tombstone, cursor));
  }

  lemma {:induction false} StoredOperationKeeps(cfg: Config, s: System, change: SyncChange, answer: Answer)
    requires Inv(cfg, s) && change.operation.device != cfg.device
    ensures Inv(cfg, s.(server := Remember(s.server, change, answer)))
  {
    hide Recorded;
    ServerFrame(cfg, s, Remember(s.server, change, answer));
  }

  /** What a change sets off is published before it, at cursors below its own, and leaves its entity alone. */
  lemma {:induction false} ReactionsKeep(cfg: Config, s: System, reactions: seq<Reaction>, key: Key, cursor: nat)
    requires Inv(cfg, s) && FreshCursor(s.server, cursor)
    ensures var v := ReactAll(s.server, reactions, key, cursor);
            && Inv(cfg, s.(server := v)) && FreshCursor(v, cursor + |reactions|) && v.operations == s.server.operations
            && CurrentEntity(v, key) == CurrentEntity(s.server, key)
  {
    hide Inv, React;
    if reactions == [] {
      assert s.(server := s.server) == s;
    } else {
      var n := |reactions| - 1;
      ReactionsKeep(cfg, s, reactions[..n], key, cursor);
      var u := s.(server := ReactAll(s.server, reactions[..n], key, cursor));
      if reactions[n].key != key {
        ReactionKeeps(cfg, u, reactions[n], key, cursor + n);
      }
    }
  }

  lemma {:induction false} ReactionKeeps(cfg: Config, s: System, reaction: Reaction, key: Key, cursor: nat)
    requires Inv(cfg, s) && FreshCursor(s.server, cursor) && reaction.key != key
    ensures var v := React(s.server, reaction, cursor);
            && Inv(cfg, s.(server := v)) && FreshCursor(v, cursor + 1) && v.operations == s.server.operations
            && CurrentEntity(v, key) == CurrentEntity(s.server, key)
  {
    hide Inv, Addressed, Trimmed, Plain;
    var t := s.(server := React(s.server, reaction, cursor));
    match reaction
    case Retract(k) => TombstoneKeeps(cfg, s, k, cursor, t);
    case Announce(k, payload) =>
      PlainIsAddressed(k, payload);
      PublishKeeps(cfg, s, k, payload, cursor, t);
  }

  lemma {:induction false} PlainIsAddressed(key: Key, payload: Json)
    requires Trimmed(key) && Plain(payload)
    ensures Addressed(key, Some(payload))
  {
  }

  lemma {:induction false} ForeignPushKeeps(cfg: Config, s: System, change: SyncChange, cursor: nat, t: System)
    requires Inv(cfg, s) && WellFormed(cfg, ForeignPush(change, cursor))
    requires change.operation.device != cfg.device && FreshCursor(s.server, cursor)
    requires ApplyChange(cfg.policy, s.server, change, cursor).Ok?
    requires t == s.(server := ApplyChange(cfg.policy, s.server, change, cursor).value.0)
    ensures Inv(cfg, t)
  {
    hide Inv, ReactAll;
    if change.operation !in s.server.operations {
      if CurrentRevision(s.server, change.key) != change.base {
        StoredOperationKeeps(cfg, s, change, Rejected(CurrentEntity(s.server, change.key)));
      } else {
        var reactions := cfg.policy.reacts(s.server, change);
        ReactionsKeep(cfg, s, reactions, change.key, cursor);
        var r := s.(server := ReactAll(s.server, reactions, change.key, cursor));
        CommitKeeps(cfg, r, change.key, change.payload, change.tombstone, cursor + |reactions|);
        var u := r.(server := Accept(cfg.policy, s.server, change, cursor));
        StoredOperationKeeps(cfg, u, change, Accepted(u.server.entities[change.key]));
      }
    }
  }

  lemma {:induction false} PublishKeeps(cfg: Config, s: System, key: Key, payload: Json, cursor: nat, t: System)
    requires Inv(cfg, s) && Addressed(key, Some(payload)) && FreshCursor(s.server, cursor)
    requires t == s.(server := Publish(s.server, key, payload, cursor))
    ensures Inv(cfg, t)
  {
    hide Inv, Addressed;
    CommitKeeps(cfg, s, key, Some(payload), false, cursor);
  }

  lemma {:induction false} TombstoneKeeps(cfg: Config, s: System, key: Key, cursor: nat, t: System)
    requires Inv(cfg, s) && Trimmed(key) && FreshCursor(s.server, cursor)
    requires t == s.(server := PublishTombstone(s.server, key, cursor))
    ensures Inv(cfg, t)
  {
    hide Inv;
    CommitKeeps(cfg, s, key, None, true, cursor);
  }
}
