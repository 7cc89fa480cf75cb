/** Laws of the daemon's transactions over every sequence of calls. */
module SyncStoreLaws {
  import opened Outcomes
  import opened SyncTypes
  import opened SyncPayload
  import opened SyncStore
  import opened SyncServer
  import opened SyncSystem
  import opened SyncInvariant

  /** What a peer's agent may call. */
  datatype PeerCall = Ack(cursor: nat) | Apply(cursor: nat, remote: Remote)

  predicate ValidCall(c: PeerCall) {
    c.Apply? ==> ValidRemote(c.remote)
  }

  function Call(s: Store, peer: PeerId, c: PeerCall): Store
    requires ValidCall(c)
  {
    match c
    case Ack(cursor) => Acknowledge(s, peer, cursor)
    case Apply(cursor, remote) => ApplyRemote(s, peer, cursor, remote).0
  }

  function Calls(s: Store, peer: PeerId, calls: seq<PeerCall>): Store
    requires forall i :: 0 <= i < |calls| ==> ValidCall(calls[i])
    decreases |calls|
  {
    if calls == [] then s else Calls(Call(s, peer, calls[0]), peer, calls[1..])
  }

  // ---- an open conflict freezes its entity ----

  lemma {:induction false} CallRespectsConflict(s: Store, peer: PeerId, key: Key, c: PeerCall)
    requires ValidCall(c) && HasOpen(s, peer, key)
    ensures HasOpen(Call(s, peer, c), peer, key) && Lookup(Call(s, peer, c), key) == Lookup(s, key)
  {
    var i :| 0 <= i < |s.conflicts| && IsOpen(s.conflicts[i], peer, key);
    var t := Call(s, peer, c);
    assert IsOpen(t.conflicts[i], peer, key);
  }

  /** Until it is decided, no sequence of acknowledgements and remote changes from the peer touches the row. */
  lemma {:induction false} OpenConflictFreezesRow(s: Store, peer: PeerId, key: Key, calls: seq<PeerCall>)
    requires forall i :: 0 <= i < |calls| ==> ValidCall(calls[i])
    requires HasOpen(s, peer, key)
    ensures HasOpen(Calls(s, peer, calls), peer, key) && Lookup(Calls(s, peer, calls), key) == Lookup(s, key)
    decreases |calls|
  {
    if calls != [] {
      CallRespectsConflict(s, peer, key, calls[0]);
      OpenConflictFreezesRow(Call(s, peer, calls[0]), peer, key, calls[1..]);
    }
  }

  // ---- a pending change freezes its entity ----

  lemma {:induction false} CallRespectsPending(s: Store, peer: PeerId, index: nat, c: PeerCall)
    requires ValidCall(c) && PeerOf(s, peer).localCursor <= index < |s.outbox|
    requires c.Ack? ==> c.cursor <= index
    ensures var t := Call(s, peer, c);
            && t.outbox == s.outbox && PeerOf(t, peer).localCursor <= index
            && Lookup(t, s.outbox[index].key) == Lookup(s, s.outbox[index].key)
  {
    if c.Apply? {
      var u := EnsurePeer(s, peer);
      assert c.remote.key == s.outbox[index].key ==> Pending(u, peer, c.remote.key) by {
        assert u.outbox[index] == s.outbox[index];
      }
    }
  }

  /** Until the change with cursor `index + 1` is acknowledged, nothing from the peer touches its row. */
  lemma {:induction false} PendingFreezesRow(s: Store, peer: PeerId, index: nat, calls: seq<PeerCall>)
    requires forall i :: 0 <= i < |calls| ==> ValidCall(calls[i]) && (calls[i].Ack? ==> calls[i].cursor <= index)
    requires PeerOf(s, peer).localCursor <= index < |s.outbox|
    ensures Lookup(Calls(s, peer, calls), s.outbox[index].key) == Lookup(s, s.outbox[index].key)
    decreases |calls|
  {
    if calls != [] {
      CallRespectsPending(s, peer, index, calls[0]);
      PendingFreezesRow(Call(s, peer, calls[0]), peer, index, calls[1..]);
    }
  }

  // ---- keep_local ----

  predicate Undecided(s: Store, peer: PeerId, id: nat) {
    && id < |s.conflicts| && s.conflicts[id].peer == peer && s.conflicts[id].resolution.None?
    && s.conflicts[id].local.Some?
    && forall i :: 0 <= i < |s.conflicts| ==> ValidRemote(s.conflicts[i].remote)
  }

  /** Keeping the local side succeeds exactly when the outbox does not yet hold the revision after the remote one. It
      then appends the recorded local content as a change based on the remote revision. */
  lemma {:induction false} KeepLocalRebases(cfg: Config, s: Store, id: nat)
    requires Undecided(s, cfg.peer, id)
    ensures var c := s.conflicts[id]; var r := Resolve(s, cfg.peer, id, KeepLocal);
            && (r.Ok? <==> !HasRevision(s.outbox, c.key, c.remote.revision + 1))
            && (r.Ok? ==>
                  && |r.value.outbox| == |s.outbox| + 1 && r.value.outbox[..|s.outbox|] == s.outbox
                  && var change := r.value.outbox[|s.outbox|];
                     && change.key == c.key && change.entity == c.local.value.(revision := c.remote.revision + 1)
                     && r.value.entities == s.entities[c.key := change.entity]
                     && forall cursor: nat :: ChangeForServer(cfg, change, cursor).Ok?
                                              ==> ChangeForServer(cfg, change, cursor).value.base == c.remote.revision)
  {
  }

  /** Keeping the local side fails when the outbox already holds that revision, for instance after two offline edits of
      an entity that another device created: the conflict then stays as it was. */
  lemma {:induction false} KeepLocalCanFail(peer: PeerId, key: Key, a: Json, b: Json, theirs: Json)
    requires a.Obj? && b.Obj? && theirs.Obj? && a != b && key.kind != "" && key.id != ""
    ensures var s1 := WriteEntity(Store(map[], map[], [], []), key, a, None).value;
            var s2 := WriteEntity(s1, key, b, None).value;
            var s3 := ApplyRemote(s2, peer, 0, Remote(key, 1, Some(theirs), false)).0;
            && Undecided(s3, peer, 0)
            && Resolve(s3, peer, 0, KeepLocal) == Err(DuplicateRevision)
  {
    var s1 := WriteEntity(Store(map[], map[], [], []), key, a, None).value;
    var s2 := WriteEntity(s1, key, b, None).value;
    assert s2.outbox[1] == LocalChange(key, Entity(2, b, false));
    assert Pending(EnsurePeer(s2, peer), peer, key);
    var s3 := ApplyRemote(s2, peer, 0, Remote(key, 1, Some(theirs), false)).0;
    assert s3.conflicts == [Conflict(peer, key, Some(Entity(2, b, false)), Remote(key, 1, Some(theirs), false), None)];
    assert s3.outbox[1].key == key && s3.outbox[1].entity.revision == 2;
  }

  /** The kept row stays until its change is acknowledged. */
  lemma {:induction false} KeptRowStays(cfg: Config, s: Store, id: nat, calls: seq<PeerCall>)
    requires Undecided(s, cfg.peer, id) && Resolve(s, cfg.peer, id, KeepLocal).Ok?
    requires PeerOf(s, cfg.peer).localCursor <= |s.outbox|
    requires forall i :: 0 <= i < |calls| ==> ValidCall(calls[i]) && (calls[i].Ack? ==> calls[i].cursor <= |s.outbox|)
    ensures Lookup(Calls(Resolve(s, cfg.peer, id, KeepLocal).value, cfg.peer, calls), s.conflicts[id].key)
            == Some(s.conflicts[id].local.value.(revision := s.conflicts[id].remote.revision + 1))
  {
    var t := Resolve(s, cfg.peer, id, KeepLocal).value;
    assert t.outbox[|s.outbox|].key == s.conflicts[id].key;
    PendingFreezesRow(t, cfg.peer, |s.outbox|, calls);
  }

  // ---- any delivery of server revisions ----

  /** A server history gives each revision of an entity one content. */
  ghost predicate IsHistory(key: Key, history: nat -> Remote) {
    forall r: nat :: r >= 1 ==> ValidRemote(history(r)) && history(r).key == key && history(r).revision == r
  }

  /** The row is one of the history's revisions, or absent. */
  ghost predicate RowInHistory(s: Store, key: Key, history: nat -> Remote) {
    key in s.entities ==>
      && s.entities[key].revision >= 1
      && SameContent(s.entities[key], history(s.entities[key].revision))
  }

  function Deliver(s: Store, peer: PeerId, history: nat -> Remote, revisions: seq<(nat, nat)>): Store
    requires forall i :: 0 <= i < |revisions| ==> ValidRemote(history(revisions[i].1))
    decreases |revisions|
  {
    if revisions == [] then s
    else Deliver(ApplyRemote(s, peer, revisions[0].0, history(revisions[0].1)).0, peer, history, revisions[1..])
  }

  function Newest(start: nat, revisions: seq<(nat, nat)>): nat
    decreases |revisions|
  {
    if revisions == [] then start else Newest(Max(start, revisions[0].1), revisions[1..])
  }

  function RowRevision(s: Store, key: Key): nat {
    if key in s.entities then s.entities[key].revision else 0
  }

  lemma {:induction false} DeliverOne(s: Store, peer: PeerId, key: Key, history: nat -> Remote, cursor: nat,
                                      revision: nat)
    requires IsHistory(key, history) && RowInHistory(s, key, history) && revision >= 1
    requires !Pending(s, peer, key) && !HasOpen(s, peer, key)
    ensures var t := ApplyRemote(s, peer, cursor, history(revision)).0;
            && t.conflicts == s.conflicts && RowInHistory(t, key, history)
            && RowRevision(t, key) == Max(RowRevision(s, key), revision)
            && !Pending(t, peer, key)
  {
    var u := EnsurePeer(s, peer);
    assert !Pending(u, peer, key);
    assert !Diverged(u, history(revision));
    var t := ApplyRemote(s, peer, cursor, history(revision)).0;
    assert PeerOf(t, peer).localCursor == PeerOf(s, peer).localCursor && t.outbox == s.outbox;
  }

  /** Without a pending change or an open conflict, delivering server revisions in any order and with any duplication
      opens no conflict and ends at the newest revision, with that revision's tombstone flag and live payload. */
  lemma {:induction false} DeliveryOrderIsIrrelevant(s: Store, peer: PeerId, key: Key, history: nat -> Remote,
                                                     revisions: seq<(nat, nat)>)
    requires IsHistory(key, history) && RowInHistory(s, key, history)
    requires forall i :: 0 <= i < |revisions| ==> revisions[i].1 >= 1
    requires !Pending(s, peer, key) && !HasOpen(s, peer, key)
    ensures var t := Deliver(s, peer, history, revisions);
            && t.conflicts == s.conflicts && RowInHistory(t, key, history)
            && RowRevision(t, key) == Newest(RowRevision(s, key), revisions)
    decreases |revisions|
  {
    if revisions != [] {
      DeliverOne(s, peer, key, history, revisions[0].0, revisions[0].1);
      DeliveryOrderIsIrrelevant(ApplyRemote(s, peer, revisions[0].0, history(revisions[0].1)).0, peer, key, history,
                                revisions[1..]);
    }
  }

  /** The newest revision is one of those delivered or already held, and none of them is newer. */
  lemma {:induction false} NewestIsMaximum(start: nat, revisions: seq<(nat, nat)>)
    ensures Newest(start, revisions) == start
            || exists i :: 0 <= i < |revisions| && revisions[i].1 == Newest(start, revisions)
    ensures start <= Newest(start, revisions)
    ensures forall i :: 0 <= i < |revisions| ==> revisions[i].1 <= Newest(start, revisions)
    decreases |revisions|
  {
    if revisions != [] {
      var rest := revisions[1..];
      NewestIsMaximum(Max(start, revisions[0].1), rest);
      forall i | 0 <= i < |revisions| ensures revisions[i].1 <= Newest(start, revisions) {
        if i > 0 {
          assert revisions[i] == rest[i - 1];
        }
      }
      if exists i :: 0 <= i < |rest| && rest[i].1 == Newest(start, revisions) {
        var i :| 0 <= i < |rest| && rest[i].1 == Newest(start, revisions);
        assert revisions[i + 1].1 == Newest(start, revisions);
      }
    }
  }

  // ---- a pushed change handed back ----

  /** A local row that the server accepted at its own revision and hands back is written unchanged if its payload is
      steady, and is a conflict otherwise, unless the payload names another entity and so goes there. */
  lemma {:induction false} HandedBackUnchanged(cfg: Config, s: Store, key: Key, cursor: nat)
    requires key in s.entities && Trimmed(key) && key.kind != "" && key.id != ""
    requires s.entities[key].revision >= 1 && s.entities[key].payload.Obj?
    requires !Pending(s, cfg.peer, key) && !HasOpen(s, cfg.peer, key)
    ensures var e := s.entities[key];
            var payload := if e.tombstone then None else Some(ToServer(cfg.ids, key.kind, key.id, e.payload).value);
            var remote := RemoteOf(key, ServerEntity(e.revision, Stored(payload), e.tombstone));
            && ValidRemote(remote)
            && (remote.key == key <==> e.tombstone || Homeward(cfg.ids, key, e.payload))
            && (e.tombstone || Plain(e.payload) ==> remote.key == key)
            && (remote.key == key ==>
                  var (t, status) := ApplyRemote(s, cfg.peer, cursor, remote);
                  && t.entities == s.entities
                  && (status == Applied <==> e.tombstone || Steady(e.payload))
                  && (status.Conflicted? <==> !e.tombstone && !Steady(e.payload)))
  {
    var e := s.entities[key];
    var server := ToServer(cfg.ids, key.kind, key.id, e.payload).value;
    StoredRoundTrip(cfg.ids, key.kind, key.id, e.payload);
    StoredIsAddressed(key, Some(server));
    if Plain(e.payload) {
      ServerFormIsAddressed(cfg.ids, key, e.payload);
    }
    assert Column(server).Obj?;
    hide Trim, ToServer, NamedId, Plain, Column;
    var payload := if e.tombstone then None else Some(server);
    var remote := RemoteOf(key, ServerEntity(e.revision, Stored(payload), e.tombstone));
    if remote.key == key {
      HandedBack(s, cfg.peer, remote, cursor);
    }
  }

  lemma {:induction false} HandedBack(s: Store, peer: PeerId, remote: Remote, cursor: nat)
    requires ValidRemote(remote) && remote.key in s.entities && s.entities[remote.key].revision == remote.revision
    requires s.entities[remote.key].tombstone == remote.tombstone
    requires !Pending(s, peer, remote.key) && !HasOpen(s, peer, remote.key)
    ensures var (t, status) := ApplyRemote(s, peer, cursor, remote);
            && t.entities == s.entities
            && (status == Applied <==> SameContent(s.entities[remote.key], remote))
            && (status.Conflicted? <==> !SameContent(s.entities[remote.key], remote))
            && (status.Conflicted? <==> HasOpen(t, peer, remote.key))
  {
    var u := EnsurePeer(s, peer);
    assert !Pending(u, peer, remote.key);
    assert s.entities[remote.key := s.entities[remote.key]] == s.entities;
  }
}
