/** The user's steps keep the invariant. */
module SyncLocalSteps {
  import opened Outcomes
  import opened SyncTypes
  import opened SyncPayload
  import opened SyncStore
  import opened SyncServer
  import opened SyncSystem
  import opened SyncInvariant

  lemma {:induction false} FromOutboxExtends(s: Store, t: Store, acknowledged: nat, key: Key, c: LocalChange)
    requires t.outbox == s.outbox + [c]
    requires if c.key == key then key in t.entities && c.entity == t.entities[key] && acknowledged <= |s.outbox|
             else FromOutbox(s, acknowledged, key) && key in t.entities && t.entities[key] == s.entities[key]
    ensures FromOutbox(t, acknowledged, key)
  {
    if c.key == key {
      assert t.outbox[|s.outbox|] == LocalChange(key, t.entities[key]);
    } else {
      var i :| && acknowledged <= i < |s.outbox| && s.outbox[i] == LocalChange(key, s.entities[key])
               && forall j :: i < j < |s.outbox| ==> s.outbox[j].key != key;
      assert t.outbox[i] == LocalChange(key, t.entities[key]);
    }
  }

  /** The parts of the invariant that a transaction on rows, outbox and conflicts must establish itself. */
  ghost predicate Kept(cfg: Config, s: System, t: Store) {
    && PeerOf(t, cfg.peer) == PeerOf(s.store, cfg.peer)
    && s.store.outbox <= t.outbox
    && StoreOk(cfg, t)
    && (forall key :: KeyOk(t, s.server.log, cfg.peer, key))
    && (s.agent.Settling? && s.agent.recorded && s.agent.batch.base + s.agent.next < |s.store.outbox|
        ==> Settled(t, s.server.log, cfg.peer, s.agent.batch.base + s.agent.next))
  }

  lemma {:induction false} OperationsFrame(cfg: Config, s: System, t: Store)
    requires OperationsOk(cfg, s)
    requires PeerOf(t, cfg.peer) == PeerOf(s.store, cfg.peer) && s.store.outbox <= t.outbox
    ensures OperationsOk(cfg, s.(store := t))
  {
  }

  lemma {:induction false} BatchFrame(cfg: Config, s: System, t: Store, b: Batch)
    requires BatchOk(cfg, s, b)
    requires PeerOf(t, cfg.peer) == PeerOf(s.store, cfg.peer) && s.store.outbox <= t.outbox
    ensures BatchOk(cfg, s.(store := t), b)
  {
    assert t.outbox[b.base..b.base + |b.page|] == s.store.outbox[b.base..b.base + |b.page|];
  }

  lemma {:induction false} AgentFrame(cfg: Config, s: System, t: Store)
    requires AgentOk(cfg, s)
    requires PeerOf(t, cfg.peer) == PeerOf(s.store, cfg.peer) && s.store.outbox <= t.outbox
    requires s.agent.Settling? && s.agent.recorded ==>
               Settled(t, s.server.log, cfg.peer, s.agent.batch.base + s.agent.next)
    ensures AgentOk(cfg, s.(store := t))
  {
    if s.agent.Sending? || s.agent.Settling? {
      BatchFrame(cfg, s, t, s.agent.batch);
    }
  }

  lemma {:induction false} LocalFrame(cfg: Config, s: System, t: Store)
    requires Inv(cfg, s) && Kept(cfg, s, t)
    ensures Inv(cfg, s.(store := t))
  {
    OperationsFrame(cfg, s, t);
    AgentFrame(cfg, s, t);
  }

  lemma {:induction false} RowFrame(s: Store, t: Store, log: seq<ServerRow>, p: Peer, key: Key)
    requires RowOk(s, log, p, key)
    requires t.outbox == s.outbox && Lookup(t, key) == Lookup(s, key)
    ensures RowOk(t, log, p, key)
  {
    if FromOutbox(s, p.localCursor, key) {
      var i :| && p.localCursor <= i < |s.outbox| && s.outbox[i] == LocalChange(key, s.entities[key])
               && forall j :: i < j < |s.outbox| ==> s.outbox[j].key != key;
      assert t.outbox[i] == LocalChange(key, t.entities[key]);
    }
  }

  // ---- appending a local change ----

  lemma {:induction false} WriteLocalKey(cfg: Config, s: Store, log: seq<ServerRow>, key: Key, e: Entity, k: Key)
    requires WriteLocal(s, key, e).Ok? && PeerOf(s, cfg.peer).localCursor <= |s.outbox|
    requires KeyOk(s, log, cfg.peer, k)
    ensures KeyOk(WriteLocal(s, key, e).value, log, cfg.peer, k)
  {
    var t := WriteLocal(s, key, e).value;
    if k == key || FromOutbox(s, PeerOf(s, cfg.peer).localCursor, k) {
      FromOutboxExtends(s, t, PeerOf(s, cfg.peer).localCursor, k, LocalChange(key, e));
    }
  }

  lemma {:induction false} WriteLocalSettled(cfg: Config, s: Store, log: seq<ServerRow>, key: Key, e: Entity,
                                             index: nat)
    requires WriteLocal(s, key, e).Ok?
    requires index < |s.outbox| && Settled(s, log, cfg.peer, index)
    ensures Settled(WriteLocal(s, key, e).value, log, cfg.peer, index)
  {
    var t := WriteLocal(s, key, e).value;
    var k := s.outbox[index].key;
    if k == key {
      assert t.outbox[|s.outbox|].key == k;
    } else if exists j :: index < j < |s.outbox| && s.outbox[j].key == k {
      var j :| index < j < |s.outbox| && s.outbox[j].key == k;
      assert t.outbox[j].key == k;
    }
  }

  lemma {:induction false} WriteLocalStore(cfg: Config, s: Store, key: Key, e: Entity)
    requires StoreOk(cfg, s)
    requires Homeward(cfg.ids, key, e.payload) && e.revision >= 1
    requires WriteLocal(s, key, e).Ok?
    ensures StoreOk(cfg, WriteLocal(s, key, e).value)
  {
  }

  lemma {:induction false} WriteLocalKept(cfg: Config, s: System, key: Key, e: Entity)
    requires StoreOk(cfg, s.store) && forall k :: KeyOk(s.store, s.server.log, cfg.peer, k)
    requires s.agent.Settling? && s.agent.recorded && s.agent.batch.base + s.agent.next < |s.store.outbox|
             ==> Settled(s.store, s.server.log, cfg.peer, s.agent.batch.base + s.agent.next)
    requires Homeward(cfg.ids, key, e.payload) && e.revision >= 1
    requires WriteLocal(s.store, key, e).Ok?
    ensures Kept(cfg, s, WriteLocal(s.store, key, e).value)
  {
    WriteLocalStore(cfg, s.store, key, e);
    forall k ensures KeyOk(WriteLocal(s.store, key, e).value, s.server.log, cfg.peer, k) {
      WriteLocalKey(cfg, s.store, s.server.log, key, e, k);
    }
    if s.agent.Settling? && s.agent.recorded && s.agent.batch.base + s.agent.next < |s.store.outbox| {
      WriteLocalSettled(cfg, s.store, s.server.log, key, e, s.agent.batch.base + s.agent.next);
    }
  }

  lemma {:induction false} WriteLocalKeeps(cfg: Config, s: System, key: Key, e: Entity)
    requires Inv(cfg, s)
    requires Homeward(cfg.ids, key, e.payload) && e.revision >= 1
    requires WriteLocal(s.store, key, e).Ok?
    ensures Inv(cfg, s.(store := WriteLocal(s.store, key, e).value))
  {
    WriteLocalKept(cfg, s, key, e);
    LocalFrame(cfg, s, WriteLocal(s.store, key, e).value);
  }

  // ---- deciding a conflict ----

  lemma {:induction false} CloseKey(cfg: Config, s: Store, log: seq<ServerRow>, id: nat, resolution: Resolution, k: Key)
    requires id < |s.conflicts|
    requires KeyOk(s, log, cfg.peer, k)
    requires k == s.conflicts[id].key ==> RowOk(s, log, PeerOf(s, cfg.peer), k)
    ensures KeyOk(CloseConflict(s, id, resolution), log, cfg.peer, k)
    ensures k != s.conflicts[id].key && HasOpen(s, cfg.peer, k) ==>
              HasOpen(CloseConflict(s, id, resolution), cfg.peer, k)
  {
    var t := CloseConflict(s, id, resolution);
    if k != s.conflicts[id].key && HasOpen(s, cfg.peer, k) {
      var i :| 0 <= i < |s.conflicts| && IsOpen(s.conflicts[i], cfg.peer, k);
      assert IsOpen(t.conflicts[i], cfg.peer, k);
    }
    forall i | 0 <= i < |t.conflicts| && IsOpen(t.conflicts[i], cfg.peer, k)
      ensures RemoteKnown(log, PeerOf(t, cfg.peer).remoteCursor, k, t.conflicts[i].remote)
    {
      assert IsOpen(s.conflicts[i], cfg.peer, k);
    }
    if RowOk(s, log, PeerOf(s, cfg.peer), k) {
      RowFrame(s, t, log, PeerOf(s, cfg.peer), k);
    }
  }

  lemma {:induction false} CloseKept(cfg: Config, s: System, id: nat, resolution: Resolution)
    requires StoreOk(cfg, s.store) && forall k :: KeyOk(s.store, s.server.log, cfg.peer, k)
    requires id < |s.store.conflicts|
    requires RowOk(s.store, s.server.log, PeerOf(s.store, cfg.peer), s.store.conflicts[id].key)
    requires s.agent.Settling? && s.agent.recorded && s.agent.batch.base + s.agent.next < |s.store.outbox|
             ==> Settled(s.store, s.server.log, cfg.peer, s.agent.batch.base + s.agent.next)
    requires s.agent.Settling? ==>
               RowSettled(s.store, s.server.log, cfg.peer, s.agent.batch.base + s.agent.next, s.store.conflicts[id].key)
    ensures Kept(cfg, s, CloseConflict(s.store, id, resolution))
  {
    hide RemoteKnown, UpTo, RowOk, FromServer;
    forall k ensures KeyOk(CloseConflict(s.store, id, resolution), s.server.log, cfg.peer, k) {
      CloseKey(cfg, s.store, s.server.log, id, resolution, k);
    }
    if s.agent.Settling? && s.agent.recorded && s.agent.batch.base + s.agent.next < |s.store.outbox| {
      CloseKey(cfg, s.store, s.server.log, id, resolution, s.store.outbox[s.agent.batch.base + s.agent.next].key);
    }
  }

  /** Closing a conflict needs its entity's row to be accounted for without it. */
  lemma {:induction false} CloseKeeps(cfg: Config, s: System, id: nat, resolution: Resolution)
    requires Inv(cfg, s)
    requires id < |s.store.conflicts|
    requires RowOk(s.store, s.server.log, PeerOf(s.store, cfg.peer), s.store.conflicts[id].key)
    requires s.agent.Settling? ==>
               RowSettled(s.store, s.server.log, cfg.peer, s.agent.batch.base + s.agent.next, s.store.conflicts[id].key)
    ensures Inv(cfg, s.(store := CloseConflict(s.store, id, resolution)))
  {
    CloseKept(cfg, s, id, resolution);
    LocalFrame(cfg, s, CloseConflict(s.store, id, resolution));
  }

  /** Writing the remote side of an open conflict makes the row a server revision. */
  lemma {:induction false} WriteRemoteShows(cfg: Config, s: Store, log: seq<ServerRow>, id: nat)
    requires id < |s.conflicts| && IsOpen(s.conflicts[id], cfg.peer, s.conflicts[id].key)
    requires ConflictOk(cfg.ids, s.conflicts[id])
    requires KeyOk(s, log, cfg.peer, s.conflicts[id].key)
    ensures var key := s.conflicts[id].key;
            FromServer(log, PeerOf(s, cfg.peer).remoteCursor, key, RemoteRow(s, s.conflicts[id].remote))
  {
    var c := s.conflicts[id];
    assert RemoteKnown(log, PeerOf(s, cfg.peer).remoteCursor, c.key, c.remote);
    var i :| 0 <= i < |log| && log[i].key == c.key && c.remote == RemoteOf(c.key, log[i].entity);
    assert Shows(RemoteRow(s, c.remote), c.key.kind, log[i].entity);
  }

  lemma {:induction false} WriteRemoteStore(cfg: Config, s: Store, id: nat)
    requires StoreOk(cfg, s)
    requires id < |s.conflicts|
    ensures ValidRemote(s.conflicts[id].remote)
    ensures StoreOk(cfg, WriteRemote(s, s.conflicts[id].remote))
  {
    assert ConflictOk(cfg.ids, s.conflicts[id]);
    RemoteRowComesHome(cfg, s, s.conflicts[id].remote);
    hide Homeward, ConflictOk;
  }

  /** What a remote entity makes of the row comes back to it. */
  lemma {:induction false} RemoteRowComesHome(cfg: Config, s: Store, r: Remote)
    requires ValidRemote(r) && Trimmed(r.key) && (!r.tombstone ==> Plain(r.payload.value))
    requires r.key in s.entities ==> Homeward(cfg.ids, r.key, s.entities[r.key].payload)
    ensures Homeward(cfg.ids, r.key, RemoteRow(s, r).payload)
  {
    if !r.tombstone {
      ServerFormIsAddressed(cfg.ids, r.key, r.payload.value);
    } else if r.key !in s.entities {
      ServerFormIsAddressed(cfg.ids, r.key, Obj(map[]));
    }
    hide Homeward;
  }

  lemma {:induction false} WriteRemoteKey(cfg: Config, s: Store, log: seq<ServerRow>, id: nat, k: Key)
    requires id < |s.conflicts| && IsOpen(s.conflicts[id], cfg.peer, s.conflicts[id].key)
    requires ConflictOk(cfg.ids, s.conflicts[id])
    requires KeyOk(s, log, cfg.peer, k)
    ensures KeyOk(WriteRemote(s, s.conflicts[id].remote), log, cfg.peer, k)
  {
    var t := WriteRemote(s, s.conflicts[id].remote);
    assert IsOpen(t.conflicts[id], cfg.peer, s.conflicts[id].key);
    if k != s.conflicts[id].key && RowOk(s, log, PeerOf(s, cfg.peer), k) {
      RowFrame(s, t, log, PeerOf(s, cfg.peer), k);
    }
  }

  lemma {:induction false} WriteRemoteKept(cfg: Config, s: System, id: nat)
    requires StoreOk(cfg, s.store) && forall k :: KeyOk(s.store, s.server.log, cfg.peer, k)
    requires id < |s.store.conflicts| && IsOpen(s.store.conflicts[id], cfg.peer, s.store.conflicts[id].key)
    requires s.agent.Settling? && s.agent.recorded && s.agent.batch.base + s.agent.next < |s.store.outbox|
             ==> Settled(s.store, s.server.log, cfg.peer, s.agent.batch.base + s.agent.next)
    ensures ValidRemote(s.store.conflicts[id].remote)
    ensures Kept(cfg, s, WriteRemote(s.store, s.store.conflicts[id].remote))
  {
    hide RemoteKnown, UpTo, KeyOk;
    WriteRemoteStore(cfg, s.store, id);
    forall k ensures KeyOk(WriteRemote(s.store, s.store.conflicts[id].remote), s.server.log, cfg.peer, k) {
      WriteRemoteKey(cfg, s.store, s.server.log, id, k);
    }
    WriteRemoteShows(cfg, s.store, s.server.log, id);
  }

  lemma {:induction false} WriteRemoteKeeps(cfg: Config, s: System, id: nat)
    requires Inv(cfg, s)
    requires id < |s.store.conflicts|
    requires s.store.conflicts[id].peer == cfg.peer && s.store.conflicts[id].resolution.None?
    ensures ValidRemote(s.store.conflicts[id].remote)
    ensures Inv(cfg, s.(store := WriteRemote(s.store, s.store.conflicts[id].remote)))
  {
    WriteRemoteKept(cfg, s, id);
    LocalFrame(cfg, s, WriteRemote(s.store, s.store.conflicts[id].remote));
  }

  lemma {:induction false} UseRemoteKeeps(cfg: Config, s: System, id: nat)
    requires Inv(cfg, s)
    requires DecideReady(s) && Resolve(s.store, cfg.peer, id, UseRemote).Ok?
    ensures Inv(cfg, s.(store := Resolve(s.store, cfg.peer, id, UseRemote).value))
  {
    var c := s.store.conflicts[id];
    assert KeyOk(s.store, s.server.log, cfg.peer, c.key);
    WriteRemoteShows(cfg, s.store, s.server.log, id);
    WriteRemoteKeeps(cfg, s, id);
    CloseKeeps(cfg, s.(store := WriteRemote(s.store, c.remote)), id, UseRemote);
  }

  lemma {:induction false} KeepLocalKeeps(cfg: Config, s: System, id: nat)
    requires Inv(cfg, s)
    requires DecideReady(s) && Resolve(s.store, cfg.peer, id, KeepLocal).Ok?
    ensures Inv(cfg, s.(store := Resolve(s.store, cfg.peer, id, KeepLocal).value))
  {
    var c := s.store.conflicts[id];
    WriteLocalKeeps(cfg, s, c.key, KeptRow(c));
    var t := s.(store := WriteLocal(s.store, c.key, KeptRow(c)).value);
    assert t.store.outbox[|s.store.outbox|] == LocalChange(c.key, KeptRow(c));
    FromOutboxExtends(s.store, t.store, PeerOf(s.store, cfg.peer).localCursor, c.key, LocalChange(c.key, KeptRow(c)));
    CloseKeeps(cfg, t, id, KeepLocal);
  }

  lemma {:induction false} ConflictsAreValid(cfg: Config, s: System)
    requires Inv(cfg, s)
    ensures DecideReady(s)
  {
  }

  lemma {:induction false} DecideKeeps(cfg: Config, s: System, id: nat, resolution: Resolution, t: System)
    requires Inv(cfg, s) && DecideReady(s)
    requires t == Edited(s, Resolve(s.store, cfg.peer, id, resolution))
    ensures Inv(cfg, t)
  {
    hide Inv;
    if Resolve(s.store, cfg.peer, id, resolution).Ok? {
      match resolution
      case UseRemote => UseRemoteKeeps(cfg, s, id);
      case KeepLocal => KeepLocalKeeps(cfg, s, id);
    }
  }

  lemma {:induction false} EditKeeps(cfg: Config, s: System, key: Key, payload: Json, expected: Option<nat>, t: System)
    requires Inv(cfg, s) && WellFormed(cfg, Edit(key, payload, expected))
    requires t == Edited(s, WriteEntity(s.store, key, payload, expected))
    ensures Inv(cfg, t)
  {
    hide Inv;
    if t != s {
      var revision := if key in s.store.entities then s.store.entities[key].revision + 1 else 1;
      WriteLocalKeeps(cfg, s, key, Entity(revision, payload, false));
    }
  }

  lemma {:induction false} RowsComeHome(cfg: Config, s: System, key: Key)
    requires Inv(cfg, s) && key in s.store.entities
    ensures Homeward(cfg.ids, key, s.store.entities[key].payload)
  {
  }

  lemma {:induction false} DeleteKeeps(cfg: Config, s: System, key: Key, expected: Option<nat>, t: System)
    requires Inv(cfg, s)
    requires t == Edited(s, TombstoneEntity(s.store, key, expected))
    ensures Inv(cfg, t)
  {
    hide Inv;
    if t != s {
      var e := s.store.entities[key];
      RowsComeHome(cfg, s, key);
      WriteLocalKeeps(cfg, s, key, Entity(e.revision + 1, e.payload, true));
    }
  }
}
