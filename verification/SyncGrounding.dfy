/** Why a synchronisation cycle can always go on: what every run keeps about the grounds of a change, the answers the
    server has stored, the pages it has validated, and the local sides of conflicts. */
module SyncGrounding {
  import opened Outcomes
  import opened SyncTypes
  import opened SyncPayload
  import opened SyncStore
  import opened SyncServer
  import opened SyncSystem
  import opened SyncInvariant
  import opened SyncAgentSteps
  import opened SyncSettleSteps
  import opened SyncPullSteps

  /** The daemon accepts what the agent makes of a log row. */
  predicate Deliverable(row: ServerRow) {
    Acceptable(row.key, row.entity)
  }

  predicate EarlierChange(outbox: seq<LocalChange>, i: nat)
    requires i < |outbox|
  {
    exists j :: 0 <= j < i && outbox[j].key == outbox[i].key
  }

  /** A change that builds on a revision is about an entity the server has, or follows another change of it. */
  ghost predicate Grounded(s: System) {
    forall i :: 0 <= i < |s.store.outbox| && s.store.outbox[i].entity.revision >= 2 ==>
      s.store.outbox[i].key in s.server.entities || EarlierChange(s.store.outbox, i)
  }

  /** No stored rejection of this device's changes is without the server's entity. */
  ghost predicate Explained(cfg: Config, s: System) {
    forall c: nat :: OperationId(cfg.device, c) in s.server.operations ==>
      s.server.operations[OperationId(cfg.device, c)].1 != Rejected(None)
  }

  ghost predicate DeliveredOk(cfg: Config, s: System) {
    forall i :: 0 <= i < |s.server.log| && s.server.log[i].cursor <= PeerOf(s.store, cfg.peer).remoteCursor ==>
      Deliverable(s.server.log[i])
  }

  /** Every conflict has a local side, and its entity a row. */
  ghost predicate LocalSides(s: Store) {
    forall i :: 0 <= i < |s.conflicts| ==> s.conflicts[i].key in s.entities && s.conflicts[i].local.Some?
  }

  /** A page of which something was answered has passed validation. */
  predicate PageChecked(cfg: Config, a: Agent) {
    (a.Sending? && a.batch.answers != []) || a.Settling? ==> PageSendable(cfg, a.batch)
  }

  ghost predicate Live(cfg: Config, s: System) {
    Grounded(s) && Explained(cfg, s) && DeliveredOk(cfg, s) && LocalSides(s.store) && PageChecked(cfg, s.agent)
  }

  lemma {:induction false} InitiallyLive(cfg: Config)
    ensures Live(cfg, INITIAL)
  {
  }

  // ---- the user's steps ----

  /** An entity with a row on the device has a change in the outbox or is on the server. */
  lemma {:induction false} RowIsGrounded(cfg: Config, s: System, key: Key)
    requires ServerOk(s.server) && KeyOk(s.store, s.server.log, cfg.peer, key)
    requires key in s.store.entities || HasOpen(s.store, cfg.peer, key)
    ensures key in s.server.entities || exists j :: 0 <= j < |s.store.outbox| && s.store.outbox[j].key == key
  {
    hide RemoteOf, Echoes;
    var log := s.server.log;
    if HasOpen(s.store, cfg.peer, key) {
      var i :| 0 <= i < |s.store.conflicts| && IsOpen(s.store.conflicts[i], cfg.peer, key);
      assert RemoteKnown(log, PeerOf(s.store, cfg.peer).remoteCursor, key, s.store.conflicts[i].remote);
      var n :| 0 <= n < |log| && log[n].key == key;
      assert RowFits(s.server, log[n]);
    } else if FromServer(log, PeerOf(s.store, cfg.peer).remoteCursor, key, s.store.entities[key]) {
      var n :| 0 <= n < |log| && log[n].key == key;
      assert RowFits(s.server, log[n]);
    } else if Awaiting(log, PeerOf(s.store, cfg.peer).remoteCursor, key, s.store.entities[key]) {
      var n :| 0 <= n < |log| && log[n].key == key;
      assert RowFits(s.server, log[n]);
    }
  }

  /** A local write that keeps the remote cursor, every row and the local sides, and appends at most one grounded
      change. */
  ghost predicate LocalWrite(cfg: Config, s: System, t: Store) {
    && PeerOf(t, cfg.peer).remoteCursor == PeerOf(s.store, cfg.peer).remoteCursor
    && LocalSides(t)
    && (t.outbox == s.store.outbox || (
          && |t.outbox| == |s.store.outbox| + 1 && t.outbox[..|s.store.outbox|] == s.store.outbox
          && (t.outbox[|s.store.outbox|].entity.revision >= 2 ==>
                t.outbox[|s.store.outbox|].key in s.server.entities || EarlierChange(t.outbox, |s.store.outbox|))))
  }

  lemma {:induction false} LocalWriteLives(cfg: Config, s: System, t: Store)
    requires Live(cfg, s) && LocalWrite(cfg, s, t)
    ensures Live(cfg, s.(store := t))
  {
    hide Deliverable, LocalSides;
    var n := |s.store.outbox|;
    forall i | 0 <= i < |t.outbox| && t.outbox[i].entity.revision >= 2
      ensures t.outbox[i].key in s.server.entities || EarlierChange(t.outbox, i)
    {
      if i < n {
        assert t.outbox[i] == s.store.outbox[i];
        if EarlierChange(s.store.outbox, i) {
          var j :| 0 <= j < i && s.store.outbox[j].key == s.store.outbox[i].key;
          assert t.outbox[j] == s.store.outbox[j];
        }
      }
    }
  }

  lemma {:induction false} WriteLocalLives(cfg: Config, s: System, key: Key, e: Entity)
    requires LocalSides(s.store) && WriteLocal(s.store, key, e).Ok?
    requires e.revision >= 2 ==>
               key in s.server.entities || exists j :: 0 <= j < |s.store.outbox| && s.store.outbox[j].key == key
    ensures LocalWrite(cfg, s, WriteLocal(s.store, key, e).value)
  {
    var t := WriteLocal(s.store, key, e).value;
    var n := |s.store.outbox|;
    if e.revision >= 2 && key !in s.server.entities {
      var j :| 0 <= j < n && s.store.outbox[j].key == key;
      assert t.outbox[j].key == t.outbox[n].key;
    }
  }

  lemma {:induction false} HasLocalSides(cfg: Config, s: System)
    requires Live(cfg, s)
    ensures LocalSides(s.store)
  {
  }

  lemma {:induction false} EditLives(cfg: Config, s: System, key: Key, payload: Json, expected: Option<nat>)
    requires Inv(cfg, s) && Live(cfg, s) && WriteEntity(s.store, key, payload, expected).Ok?
    ensures Live(cfg, s.(store := WriteEntity(s.store, key, payload, expected).value))
  {
    hide Live, LocalSides, KeyOk, ServerOk, StoreOk, RemoteCursorOk, OperationsOk, AgentOk, WriteLocal;
    assert KeyOk(s.store, s.server.log, cfg.peer, key);
    HasLocalSides(cfg, s);
    var t := WriteEntity(s.store, key, payload, expected).value;
    if t == s.store {
      assert s.(store := t) == s;
    } else {
      if key in s.store.entities {
        RowIsGrounded(cfg, s, key);
      }
      var revision := if key in s.store.entities then s.store.entities[key].revision + 1 else 1;
      WriteLocalLives(cfg, s, key, Entity(revision, payload, false));
      LocalWriteLives(cfg, s, t);
    }
  }

  lemma {:induction false} DeleteLives(cfg: Config, s: System, key: Key, expected: Option<nat>)
    requires Inv(cfg, s) && Live(cfg, s) && TombstoneEntity(s.store, key, expected).Ok?
    ensures Live(cfg, s.(store := TombstoneEntity(s.store, key, expected).value))
  {
    hide Live, LocalSides, KeyOk, ServerOk, StoreOk, RemoteCursorOk, OperationsOk, AgentOk, WriteLocal;
    assert KeyOk(s.store, s.server.log, cfg.peer, key);
    HasLocalSides(cfg, s);
    RowIsGrounded(cfg, s, key);
    var e := s.store.entities[key];
    WriteLocalLives(cfg, s, key, Entity(e.revision + 1, e.payload, true));
    LocalWriteLives(cfg, s, TombstoneEntity(s.store, key, expected).value);
  }

  lemma {:induction false} DecideLives(cfg: Config, s: System, id: nat, resolution: Resolution)
    requires Inv(cfg, s) && Live(cfg, s) && DecideReady(s) && Resolve(s.store, cfg.peer, id, resolution).Ok?
    ensures Live(cfg, s.(store := Resolve(s.store, cfg.peer, id, resolution).value))
  {
    hide Live, Inv, KeyOk, ServerOk;
    KeyIsOk(cfg, s, s.store.conflicts[id].key);
    HasLocalSides(cfg, s);
    match resolution {
      case UseRemote => UseRemoteWrites(cfg, s, id);
      case KeepLocal => KeepLocalWrites(cfg, s, id);
    }
    LocalWriteLives(cfg, s, Resolve(s.store, cfg.peer, id, resolution).value);
  }

  lemma {:induction false} UseRemoteWrites(cfg: Config, s: System, id: nat)
    requires LocalSides(s.store) && DecideReady(s) && Resolve(s.store, cfg.peer, id, UseRemote).Ok?
    ensures LocalWrite(cfg, s, Resolve(s.store, cfg.peer, id, UseRemote).value)
  {
  }

  lemma {:induction false} KeepLocalWrites(cfg: Config, s: System, id: nat)
    requires LocalSides(s.store) && DecideReady(s) && Resolve(s.store, cfg.peer, id, KeepLocal).Ok?
    requires ServerOk(s.server) && KeyOk(s.store, s.server.log, cfg.peer, s.store.conflicts[id].key)
    ensures LocalWrite(cfg, s, Resolve(s.store, cfg.peer, id, KeepLocal).value)
  {
    hide ServerOk, KeyOk;
    var c := s.store.conflicts[id];
    assert IsOpen(c, cfg.peer, c.key);
    RowIsGrounded(cfg, s, c.key);
    WriteLocalLives(cfg, s, c.key, KeptRow(c));
    var written := WriteLocal(s.store, c.key, KeptRow(c)).value;
    assert Resolve(s.store, cfg.peer, id, KeepLocal).value == CloseConflict(written, id, KeepLocal);
  }

  lemma {:induction false} KeyIsOk(cfg: Config, s: System, key: Key)
    requires Inv(cfg, s)
    ensures ServerOk(s.server) && KeyOk(s.store, s.server.log, cfg.peer, key)
  {
  }

  // ---- the server's steps ----

  /** A server transaction logs rows at new cursors only, and forgets no entity. */
  ghost predicate Grows(v: Server, w: Server, cursor: nat) {
    && v.log <= w.log && (forall i :: |v.log| <= i < |w.log| ==> w.log[i].cursor >= cursor)
    && v.entities.Keys <= w.entities.Keys
  }

  /** It keeps the answers to this device, and explains new ones. */
  ghost predicate Answers(cfg: Config, v: Server, w: Server) {
    forall c: nat :: OperationId(cfg.device, c) in w.operations ==>
      || (OperationId(cfg.device, c) in v.operations
          && w.operations[OperationId(cfg.device, c)] == v.operations[OperationId(cfg.device, c)])
      || w.operations[OperationId(cfg.device, c)].1 != Rejected(None)
  }

  lemma {:induction false} ServerWriteLives(cfg: Config, s: System, w: Server, cursor: nat)
    requires Live(cfg, s) && RemoteCursorOk(cfg, s) && FreshCursor(s.server, cursor)
    requires Grows(s.server, w, cursor) && Answers(cfg, s.server, w)
    ensures Live(cfg, s.(server := w))
  {
    hide Deliverable, EarlierChange, LocalSides, PageChecked;
    var n := |s.server.log|;
    assert forall i :: 0 <= i < n ==> w.log[i] == s.server.log[i];
    assert forall i :: n <= i < |w.log| ==> w.log[i].cursor > PeerOf(s.store, cfg.peer).remoteCursor;
  }

  lemma {:induction false} CommitGrows(v: Server, key: Key, payload: Option<Json>, tombstone: bool, cursor: nat)
    ensures Grows(v, Commit(v, key, payload, tombstone, cursor), cursor)
  {
  }

  lemma {:induction false} ReactionsGrow(v: Server, reactions: seq<Reaction>, key: Key, cursor: nat)
    ensures Grows(v, ReactAll(v, reactions, key, cursor), cursor)
    ensures ReactAll(v, reactions, key, cursor).operations == v.operations
    ensures CurrentEntity(ReactAll(v, reactions, key, cursor), key) == CurrentEntity(v, key)
  {
    hide Trimmed, Plain;
    if reactions != [] {
      var n := |reactions| - 1;
      ReactionsGrow(v, reactions[..n], key, cursor);
      var u := ReactAll(v, reactions[..n], key, cursor);
      ReactionGrows(u, reactions[n], key, cursor + n);
      hide React;
    }
  }

  lemma {:induction false} ReactionGrows(v: Server, reaction: Reaction, key: Key, cursor: nat)
    ensures Grows(v, React(v, reaction, cursor), cursor) && React(v, reaction, cursor).operations == v.operations
    ensures reaction.key != key ==> CurrentEntity(React(v, reaction, cursor), key) == CurrentEntity(v, key)
  {
    hide Trimmed, Plain;
  }

  lemma {:induction false} AcceptGrows(policy: Policy, v: Server, c: SyncChange, cursor: nat)
    ensures Grows(v, Accept(policy, v, c, cursor), cursor) && Accept(policy, v, c, cursor).operations == v.operations
  {
    hide ReactAll;
    var reactions := policy.reacts(v, c);
    ReactionsGrow(v, reactions, c.key, cursor);
    var u := ReactAll(v, reactions, c.key, cursor);
    CommitGrows(u, c.key, c.payload, c.tombstone, cursor + |reactions|);
  }

  lemma {:induction false} ApplyGrows(policy: Policy, v: Server, c: SyncChange, cursor: nat)
    requires ApplyChange(policy, v, c, cursor).Ok?
    ensures Grows(v, ApplyChange(policy, v, c, cursor).value.0, cursor)
  {
    hide Accept, Recorded;
    AcceptGrows(policy, v, c, cursor);
  }

  /** A push that is not refused. Only a rejection without an entity would be unexplained. */
  lemma {:induction false} PushGrows(cfg: Config, v: Server, c: SyncChange, cursor: nat)
    requires ApplyChange(cfg.policy, v, c, cursor).Ok?
    requires c.operation.device == cfg.device ==> c.key in v.entities || c.base == 0
    ensures Grows(v, ApplyChange(cfg.policy, v, c, cursor).value.0, cursor)
    ensures Answers(cfg, v, ApplyChange(cfg.policy, v, c, cursor).value.0)
  {
    hide Accept, Recorded;
    ApplyGrows(cfg.policy, v, c, cursor);
    AcceptGrows(cfg.policy, v, c, cursor);
  }

  lemma {:induction false} ForeignPushLives(cfg: Config, s: System, change: SyncChange, cursor: nat)
    requires Inv(cfg, s) && Live(cfg, s) && change.operation.device != cfg.device && FreshCursor(s.server, cursor)
    requires ApplyChange(cfg.policy, s.server, change, cursor).Ok?
    ensures Live(cfg, s.(server := ApplyChange(cfg.policy, s.server, change, cursor).value.0))
  {
    hide Live, ServerOk, StoreOk, OperationsOk, AgentOk, KeyOk, ApplyChange, Grows, Answers;
    PushGrows(cfg, s.server, change, cursor);
    ServerWriteLives(cfg, s, ApplyChange(cfg.policy, s.server, change, cursor).value.0, cursor);
  }

  lemma {:induction false} PublishLives(cfg: Config, s: System, key: Key, payload: Option<Json>, tombstone: bool,
                                        cursor: nat)
    requires Inv(cfg, s) && Live(cfg, s) && FreshCursor(s.server, cursor)
    ensures Live(cfg, s.(server := Commit(s.server, key, payload, tombstone, cursor)))
  {
    hide Live, ServerOk, StoreOk, OperationsOk, AgentOk, KeyOk, Grows;
    CommitGrows(s.server, key, payload, tombstone, cursor);
    ServerWriteLives(cfg, s, Commit(s.server, key, payload, tombstone, cursor), cursor);
  }

  // ---- the agent's steps ----

  /** Everything before the next change of a batch has been sent, so its entity is on the server. */
  lemma {:induction false} SentIsKnown(cfg: Config, s: System, j: nat)
    requires Inv(cfg, s) && Live(cfg, s) && s.agent.Sending? && j < s.agent.batch.base + |s.agent.batch.answers|
    ensures j < |s.store.outbox| && s.store.outbox[j].key in s.server.entities
  {
    hide StoreOk, RemoteCursorOk, KeyOk, LocalSides, PageChecked, Grounded, DeliveredOk, ChangeForServer, Recorded,
         Addressed;
    var b := s.agent.batch;
    var p := PeerOf(s.store, cfg.peer);
    if j >= b.base {
      assert Answered(cfg, s.server, b.base + (j - b.base) + 1, b.answers[j - b.base]);
    }
    assert OperationId(cfg.device, j + 1) in s.server.operations;
    var answer := s.server.operations[OperationId(cfg.device, j + 1)].1;
    assert AnswerOk(s.server.log, p, j + 1, s.store.outbox[j], answer);
    assert answer != Rejected(None);
    var e := if answer.Accepted? then answer.entity else answer.current.value;
    assert Logged(s.server.log, s.store.outbox[j].key, e);
    var i :| 0 <= i < |s.server.log| && s.server.log[i].key == s.store.outbox[j].key;
    assert RowFits(s.server, s.server.log[i]);
  }

  /** The server rejects a change only with an entity to hand back. */
  lemma {:induction false} RejectionHasEntity(cfg: Config, s: System)
    requires Inv(cfg, s) && Live(cfg, s) && s.agent.Sending? && |s.agent.batch.answers| < |s.agent.batch.page|
    ensures var c := s.agent.batch.page[|s.agent.batch.answers|];
            c.key in s.server.entities || c.entity.revision <= 1
  {
    hide Inv, Explained, DeliveredOk, LocalSides, PageChecked;
    NextToSend(cfg, s);
    var i := s.agent.batch.base + |s.agent.batch.answers|;
    if s.store.outbox[i].entity.revision >= 2 && s.store.outbox[i].key !in s.server.entities {
      var j :| 0 <= j < i && s.store.outbox[j].key == s.store.outbox[i].key;
      SentIsKnown(cfg, s, j);
    }
  }

  lemma {:induction false} SendNextLives(cfg: Config, s: System, cursor: nat)
    requires Inv(cfg, s) && Live(cfg, s) && s.agent.Sending? && |s.agent.batch.answers| < |s.agent.batch.page|
    requires FreshCursor(s.server, cursor)
    ensures Live(cfg, DoSendNext(cfg, s, cursor))
  {
    hide Live, Inv, Plain, Trimmed, ChangeForServer, ApplyChange, FreshCursor, PageSendable, Grows, Answers, Addressed,
         ServerOk, StoreOk, KeyOk, OperationsOk, AgentOk, RemoteCursorOk;
    var b := s.agent.batch;
    var c := b.page[|b.answers|];
    NextToSend(cfg, s);
    ChangeShape(cfg, c, b.base + |b.answers| + 1);
    var change := ChangeForServer(cfg, c, b.base + |b.answers| + 1).value;
    var r := ApplyChange(cfg.policy, s.server, change, cursor);
    var t := DoSendNext(cfg, s, cursor);
    if (b.answers == [] && !PageSendable(cfg, b)) || r.Err? {
      SameLife(cfg, s, t);
    } else {
      RejectionHasEntity(cfg, s);
      Parts(cfg, s);
      PushGrows(cfg, s.server, change, cursor);
      ServerWriteLives(cfg, s, r.value.0, cursor);
      PageStays(cfg, s);
      SamePage(cfg, b, r.value.1);
      SameLife(cfg, s.(server := r.value.0), t);
    }
  }

  lemma {:induction false} PageStays(cfg: Config, s: System)
    requires Live(cfg, s) && s.agent.Sending? && (s.agent.batch.answers != [] || PageSendable(cfg, s.agent.batch))
    ensures PageSendable(cfg, s.agent.batch)
  {
  }

  lemma {:induction false} SamePage(cfg: Config, b: Batch, answer: Answer)
    requires PageSendable(cfg, b)
    ensures PageSendable(cfg, b.(answers := b.answers + [answer]))
  {
  }

  /** Only the tables and the validation of the page matter. */
  lemma {:induction false} SameLife(cfg: Config, s: System, t: System)
    requires Live(cfg, s) && t.store == s.store && t.server == s.server && PageChecked(cfg, t.agent)
    ensures Live(cfg, t)
  {
    hide PageChecked, Deliverable, EarlierChange, LocalSides;
  }

  lemma {:induction false} AppliedShape(cfg: Config, s: Store, cursor: nat, r: Remote)
    requires ValidRemote(r)
    ensures var t := ApplyRemote(s, cfg.peer, cursor, r).0;
            && t.outbox == s.outbox
            && PeerOf(t, cfg.peer) ==
                 PeerOf(s, cfg.peer).(remoteCursor := Max(PeerOf(s, cfg.peer).remoteCursor, cursor))
  {
  }

  /** A conflict is recorded only about an entity with a row. */
  lemma {:induction false} AppliedLocalSides(cfg: Config, s: Store, cursor: nat, r: Remote)
    requires ValidRemote(r) && LocalSides(s) && StoreOk(cfg, s)
    ensures LocalSides(ApplyRemote(s, cfg.peer, cursor, r).0)
  {
    hide OneOpen, ConflictOk, Plain, Trimmed, ValidRemote;
    var u := EnsurePeer(s, cfg.peer);
    if Pending(u, cfg.peer, r.key) {
      var i :| PeerOf(u, cfg.peer).localCursor <= i < |u.outbox| && u.outbox[i].key == r.key;
      assert s.outbox[i].key in s.entities;
    }
  }

  lemma {:induction false} AppliedLives(cfg: Config, s: System, cursor: nat, r: Remote, t: System)
    requires Live(cfg, s) && StoreOk(cfg, s.store) && ValidRemote(r) && PageChecked(cfg, t.agent)
    requires t.store == ApplyRemote(s.store, cfg.peer, cursor, r).0 && t.server == s.server
    requires forall i :: 0 <= i < |s.server.log|
                         && s.server.log[i].cursor <= Max(PeerOf(s.store, cfg.peer).remoteCursor, cursor)
                         ==> Deliverable(s.server.log[i])
    ensures Live(cfg, t)
  {
    hide Deliverable, StoreOk, LocalSides, ApplyRemote, ValidRemote, EarlierChange, PageChecked;
    AppliedShape(cfg, s.store, cursor, r);
    AppliedLocalSides(cfg, s.store, cursor, r);
  }

  lemma {:induction false} OpenConflictLives(cfg: Config, s: System)
    requires Inv(cfg, s) && Live(cfg, s) && MustOpen(s.agent)
    ensures Live(cfg, DoOpenConflict(cfg, s))
  {
    hide Inv, BatchOk, AnswerOk, Settled, Live, ApplyRemote, RemoteOf, NamedId, IsDaemonKind, PageSendable, KeyOk,
         StoreOk;
    var a := s.agent;
    SettlingParts(cfg, s);
    SeenBound(cfg, s, a.batch);
    Parts(cfg, s);
    SettlingPage(cfg, s);
    var current := a.batch.answers[a.next].current;
    var t := DoOpenConflict(cfg, s);
    if current.Some? && Acceptable(a.batch.page[a.next].key, current.value) {
      DeliveredAre(cfg, s);
      AppliedLives(cfg, s, a.batch.seen, RemoteOf(a.batch.page[a.next].key, current.value), t);
    } else {
      SameLife(cfg, s, t);
    }
  }

  lemma {:induction false} SettlingPage(cfg: Config, s: System)
    requires Live(cfg, s) && s.agent.Settling?
    ensures PageSendable(cfg, s.agent.batch)
  {
  }

  lemma {:induction false} DeliveredAre(cfg: Config, s: System)
    requires Live(cfg, s)
    ensures forall i :: 0 <= i < |s.server.log| && s.server.log[i].cursor <= PeerOf(s.store, cfg.peer).remoteCursor
                        ==> Deliverable(s.server.log[i])
  {
    hide Deliverable;
  }

  /** The row that is applied next is the first undelivered one. */
  lemma {:induction false} NextRow(cfg: Config, s: System)
    requires Inv(cfg, s) && s.agent.Applying? && s.agent.done < |s.agent.rows|
    ensures var cursor := PeerOf(s.store, cfg.peer).remoteCursor; var k := FirstAfter(s.server.log, cursor);
            && k < |s.server.log| && s.agent.rows[s.agent.done] == s.server.log[k] && s.server.log[k].cursor > cursor
            && FirstAfter(s.server.log, s.server.log[k].cursor) == k + 1
            && forall i :: 0 <= i < |s.server.log| && s.server.log[i].cursor <= s.server.log[k].cursor ==> i <= k
  {
    hide Inv, StoreOk, OperationsOk, KeyOk, RemoteCursorOk, RowFits, Logged, FirstAfter;
    Parts(cfg, s);
    CursorsAscendIn(s.server);
    AppliedRows(s.server.log, PeerOf(s.store, cfg.peer).remoteCursor, s.agent.rows, s.agent.done);
    var k := FirstAfter(s.server.log, PeerOf(s.store, cfg.peer).remoteCursor);
    DeliversOne(s.server.log, PeerOf(s.store, cfg.peer).remoteCursor, k);
  }

  lemma {:induction false} ApplyNextLives(cfg: Config, s: System)
    requires Inv(cfg, s) && Live(cfg, s) && s.agent.Applying? && s.agent.done < |s.agent.rows|
    ensures Live(cfg, DoApplyNext(cfg, s))
  {
    hide Inv, Live, ApplyRemote, RemoteOf, NamedId, IsDaemonKind, KeyOk, StoreOk, ServerOk, OperationsOk, AgentOk;
    NextRow(cfg, s);
    Parts(cfg, s);
    var row := s.agent.rows[s.agent.done];
    var k := FirstAfter(s.server.log, PeerOf(s.store, cfg.peer).remoteCursor);
    var t := DoApplyNext(cfg, s);
    if Deliverable(row) {
      DeliveredAre(cfg, s);
      assert forall i :: 0 <= i < k ==> s.server.log[i].cursor <= PeerOf(s.store, cfg.peer).remoteCursor;
      AppliedLives(cfg, s, row.cursor, RemoteOf(row.key, row.entity), t);
    } else {
      SameLife(cfg, s, t);
    }
  }

  lemma {:induction false} AcknowledgedLives(cfg: Config, s: System, t: System)
    requires Live(cfg, s) && t == Do(cfg, s, AckNext)
    ensures Live(cfg, t)
  {
    hide Deliverable, EarlierChange, PageSendable;
    if MustAck(s.agent) {
      SettlingPage(cfg, s);
      AckedPage(cfg, s.agent.batch, t.agent);
    }
  }

  lemma {:induction false} AckedPage(cfg: Config, b: Batch, a: Agent)
    requires PageSendable(cfg, b) && (a.Settling? ==> a.batch == b) && !a.Sending?
    ensures PageChecked(cfg, a)
  {
  }

  // ---- every step ----

  lemma {:induction false} StepLives(cfg: Config, s: System, step: Step)
    requires Inv(cfg, s) && Live(cfg, s)
    ensures Live(cfg, Do(cfg, s, step))
  {
    hide Inv, Live, WriteEntity, TombstoneEntity, Resolve, ApplyChange, DoSendNext, DoOpenConflict, DoApplyNext, Commit,
         FreshCursor, MustOpen, ValidChange, ValidRemote;
    var t := Do(cfg, s, step);
    match step {
      case Edit(key, payload, expected) =>
        if WriteEntity(s.store, key, payload, expected).Ok? {
          EditLives(cfg, s, key, payload, expected);
        }
      case Delete(key, expected) =>
        if TombstoneEntity(s.store, key, expected).Ok? {
          DeleteLives(cfg, s, key, expected);
        }
      case Decide(id, resolution) =>
        if DecideReady(s) && Resolve(s.store, cfg.peer, id, resolution).Ok? {
          DecideLives(cfg, s, id, resolution);
        }
      case ForeignPush(change, cursor) =>
        if change.operation.device != cfg.device && FreshCursor(s.server, cursor)
           && ApplyChange(cfg.policy, s.server, change, cursor).Ok? {
          ForeignPushLives(cfg, s, change, cursor);
        }
      case ServerPublish(key, payload, cursor) =>
        if FreshCursor(s.server, cursor) {
          PublishLives(cfg, s, key, Some(payload), false, cursor);
          assert s.(server := s.server) == s;
        }
      case ServerTombstone(key, cursor) =>
        if FreshCursor(s.server, cursor) {
          PublishLives(cfg, s, key, None, true, cursor);
          assert s.(server := s.server) == s;
        }
      case SendNext(cursor) =>
        if s.agent.Sending? && |s.agent.batch.answers| < |s.agent.batch.page| && FreshCursor(s.server, cursor) {
          SendNextLives(cfg, s, cursor);
        }
      case OpenConflict =>
        if MustOpen(s.agent) {
          OpenConflictLives(cfg, s);
        }
      case ApplyNext =>
        if s.agent.Applying? && s.agent.done < |s.agent.rows| {
          ApplyNextLives(cfg, s);
        }
      case AckNext => AcknowledgedLives(cfg, s, t);
      case FetchOutbox =>
        if s.agent.NextPush? {
          SameLife(cfg, s, t);
        }
      case _ =>
        if t.agent != s.agent {
          SameLife(cfg, s, t);
        }
    }
  }
}
