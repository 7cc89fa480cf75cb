/** Why entity ids must be trimmed and payloads must not name other entities: the daemon trims the id it is handed, but
    not the id it stores, and the agent follows the id that a payload names. */
module SyncIdentity {
  import opened Outcomes
  import opened SyncTypes
  import opened SyncPayload
  import opened SyncStore
  import opened SyncServer
  import opened SyncSystem
  import opened SyncInvariant
  import opened SyncConvergence
  import opened SyncStoreLaws

  /** The other device's creation of the entity. */
  function Creation(cfg: Config, key: Key, theirs: Json): SyncChange {
    SyncChange(OperationId(cfg.device + 1, 1), key, 0, Some(theirs), false, 0)
  }

  /** A server without limits, quotas and materialisation. */
  ghost predicate Lenient(policy: Policy) {
    && (forall c :: !policy.exceeds(c))
    && (forall v, c :: !policy.refuses(v, c))
    && (forall v, c :: policy.reacts(v, c) == [])
  }

  predicate NoSecret(kind: string, payload: Json) {
    MetadataKind(kind) ==> !ContainsSecret(payload)
  }

  /** The other device's payload passes the server's validation. */
  ghost predicate TakesTheirs(cfg: Config, key: Key, theirs: Json) {
    Lenient(cfg.policy) && IsDaemonKind(key.kind) && theirs.Obj? && NoSecret(key.kind, theirs)
  }

  /** Both devices' payloads pass the server's validation. */
  ghost predicate Uneventful(cfg: Config, key: Key, mine: Json, theirs: Json) {
    TakesTheirs(cfg, key, theirs) && TakesMine(cfg, key, mine)
  }

  /** This device's payload does. */
  ghost predicate TakesMine(cfg: Config, key: Key, mine: Json) {
    && Lenient(cfg.policy) && IsDaemonKind(key.kind) && mine.Obj?
    && NoSecret(key.kind, ToServer(cfg.ids, key.kind, key.id, mine).value)
  }

  /** What the server has after the other device's creation. */
  function Foreign(theirs: Json): ServerEntity {
    ServerEntity(1, Some(Column(theirs)), false)
  }

  /** The device creates an entity that another device has already created; then one undisturbed cycle. */
  function CollidingCreation(cfg: Config, key: Key, mine: Json, theirs: Json): seq<Step> {
    [ Edit(key, mine, None),
      ForeignPush(Creation(cfg, key, theirs), 1),
      BeginCycle, FetchOutbox, SendNext(2), OpenConflict, AckNext, FetchRemote, ApplyNext ]
  }

  lemma {:induction false} RunOne(cfg: Config, s: System, steps: seq<Step>, step: Step)
    ensures Run(cfg, s, steps + [step]) == Do(cfg, Run(cfg, s, steps), step)
  {
    assert (steps + [step])[..|steps|] == steps;
  }

  lemma {:induction false} FirstWrite(key: Key, payload: Json)
    requires payload.Obj?
    ensures var row := Entity(1, payload, false);
            WriteEntity(INITIAL.store, key, payload, None) ==
              Ok(Store(map[], map[key := row], [LocalChange(key, row)], []))
  {
    var row := Entity(1, payload, false);
    assert !HasRevision(INITIAL.store.outbox, key, 1);
    assert INITIAL.store.outbox + [LocalChange(key, row)] == [LocalChange(key, row)];
    assert INITIAL.store.entities[key := row] == map[key := row];
  }

  lemma {:induction false} TheirsIsValid(cfg: Config, key: Key, theirs: Json)
    requires TakesTheirs(cfg, key, theirs)
    ensures ValidChange(cfg.policy, Creation(cfg, key, theirs))
  {
    hide ContainsSecret;
  }

  /** The first foreign creation is accepted. */
  lemma {:induction false} ForeignCreated(cfg: Config, s: System, key: Key, theirs: Json)
    requires Lenient(cfg.policy) && ValidChange(cfg.policy, Creation(cfg, key, theirs)) && s.server == INITIAL.server
    ensures var e := Foreign(theirs);
            var t := Do(cfg, s, ForeignPush(Creation(cfg, key, theirs), 1));
            && t == s.(server := t.server) && t.server.entities == map[key := e]
            && t.server.log == [ServerRow(1, key, e)]
            && t.server.operations.Keys == {OperationId(cfg.device + 1, 1)}
  {
    hide ValidChange;
    var change := Creation(cfg, key, theirs);
    assert cfg.policy.reacts(s.server, change) == [];
    assert FreshCursor(s.server, 1);
    assert ApplyChange(cfg.policy, s.server, change, 1).Ok?;
  }

  /** The device's own creation of the entity is then rejected. */
  lemma {:induction false} OwnIsRejected(cfg: Config, s: System, key: Key, mine: Json, theirs: Json)
    requires Uneventful(cfg, key, mine, theirs)
    requires var c := LocalChange(key, Entity(1, mine, false)); var e := Foreign(theirs);
             && s.agent == Sending(Batch(0, 0, [c], 0, [])) && s.server.entities == map[key := e]
             && s.server.log == [ServerRow(1, key, e)] && s.server.operations.Keys == {OperationId(cfg.device + 1, 1)}
    ensures var c := LocalChange(key, Entity(1, mine, false)); var e := Foreign(theirs);
            var t := Do(cfg, s, SendNext(2));
            && t == s.(server := t.server, agent := Settling(Batch(0, 0, [c], 0, [Rejected(Some(e))]), 0, false))
            && t.server.entities == s.server.entities && t.server.log == s.server.log
  {
    hide ToServer, ContainsSecret;
    var c := LocalChange(key, Entity(1, mine, false));
    assert ChangeForServer(cfg, c, 1).Ok?;
    assert PageSendable(cfg, s.agent.batch);
    assert FreshCursor(s.server, 2);
    assert [] + [Rejected(Some(Foreign(theirs)))] ==
             [Rejected(Some(Foreign(theirs)))];
  }

  /** The outbox is fetched. */
  lemma {:induction false} FetchesOutbox(cfg: Config, s: System, c: LocalChange)
    requires s.agent.Idle? && s.store.peers == map[] && s.store.outbox == [c]
    ensures Do(cfg, Do(cfg, s, BeginCycle), FetchOutbox) == s.(agent := Sending(Batch(0, 0, [c], 0, [])))
  {
    assert s.store.outbox[0..1] == s.store.outbox;
  }

  lemma {:induction false} UpToSettling(cfg: Config, key: Key, mine: Json, theirs: Json)
    requires Uneventful(cfg, key, mine, theirs)
    ensures var steps := CollidingCreation(cfg, key, mine, theirs);
            var row := Entity(1, mine, false);
            var e := Foreign(theirs);
            var s := Run(cfg, INITIAL, steps[..5]);
            && s.store == Store(map[], map[key := row], [LocalChange(key, row)], [])
            && s.server.entities == map[key := e] && s.server.log == [ServerRow(1, key, e)]
            && s.agent == Settling(Batch(0, 0, [LocalChange(key, row)], 0, [Rejected(Some(e))]), 0, false)
  {
    hide ToServer, ContainsSecret, WriteEntity, Lenient, ValidChange;
    var steps := CollidingCreation(cfg, key, mine, theirs);
    var row := Entity(1, mine, false);
    RunFive(cfg, INITIAL, steps);
    FirstWrite(key, mine);
    var s1 := Do(cfg, INITIAL, steps[0]);
    assert s1 == INITIAL.(store := Store(map[], map[key := row], [LocalChange(key, row)], []));
    hide Do;
    TheirsIsValid(cfg, key, theirs);
    ForeignCreated(cfg, s1, key, theirs);
    var s2 := Do(cfg, s1, steps[1]);
    FetchesOutbox(cfg, s2, LocalChange(key, row));
    OwnIsRejected(cfg, s2.(agent := Sending(Batch(0, 0, [LocalChange(key, row)], 0, []))), key, mine, theirs);
  }

  lemma {:induction false} RunFive(cfg: Config, s: System, steps: seq<Step>)
    requires |steps| >= 5
    ensures Run(cfg, s, steps[..5])
         == Do(cfg, Do(cfg, Do(cfg, Do(cfg, Do(cfg, s, steps[0]), steps[1]), steps[2]), steps[3]), steps[4])
  {
    hide Do;
    assert steps[..1] == [] + [steps[0]];
    assert steps[..2] == steps[..1] + [steps[1]];
    assert steps[..3] == steps[..2] + [steps[2]];
    assert steps[..4] == steps[..3] + [steps[3]];
    assert steps[..5] == steps[..4] + [steps[4]];
    RunOne(cfg, s, [], steps[0]);
    RunOne(cfg, s, steps[..1], steps[1]);
    RunOne(cfg, s, steps[..2], steps[2]);
    RunOne(cfg, s, steps[..3], steps[3]);
    RunOne(cfg, s, steps[..4], steps[4]);
  }

  /** With a trimmed id the collision is reported as a conflict. */
  lemma {:induction false} TrimmedIdIsReported(cfg: Config, key: Key, mine: Json, theirs: Json)
    requires Uneventful(cfg, key, mine, theirs) && Addressed(key, Some(theirs)) && key.id != ""
    ensures HasOpen(Run(cfg, INITIAL, CollidingCreation(cfg, key, mine, theirs)[..6]).store, cfg.peer, key)
  {
    var steps := CollidingCreation(cfg, key, mine, theirs);
    UpToSettling(cfg, key, mine, theirs);
    var s := Run(cfg, INITIAL, steps[..5]);
    assert steps[..6] == steps[..5] + [steps[5]];
    RunOne(cfg, INITIAL, steps[..5], steps[5]);
    ForeignIsAcceptable(key, theirs);
    hide Do, Run, RemoteOf, Acceptable, Uneventful, ApplyRemote, ValidRemote, Addressed;
    OpensOnly(cfg, s, LocalChange(key, Entity(1, mine, false)), Foreign(theirs));
    PendingOpens(cfg.peer, s.store, RemoteOf(key, Foreign(theirs)));
  }

  lemma {:induction false} ForeignIsAcceptable(key: Key, theirs: Json)
    requires IsDaemonKind(key.kind) && theirs.Obj? && Addressed(key, Some(theirs)) && key.id != ""
    ensures Acceptable(key, Foreign(theirs)) && RemoteOf(key, Foreign(theirs)).key == key
    ensures ValidRemote(RemoteOf(key, Foreign(theirs)))
  {
    StoredIsAddressed(key, Some(theirs));
    hide Trim, NamedId;
  }

  lemma {:induction false} OpensOnly(cfg: Config, s: System, c: LocalChange, e: ServerEntity)
    requires s.agent == Settling(Batch(0, 0, [c], 0, [Rejected(Some(e))]), 0, false)
    requires Acceptable(c.key, e)
    ensures Do(cfg, s, OpenConflict).store == ApplyRemote(s.store, cfg.peer, 0, RemoteOf(c.key, e)).0
  {
    hide ApplyRemote, RemoteOf, Acceptable;
  }

  lemma {:induction false} PendingOpens(peer: PeerId, s: Store, remote: Remote)
    requires s.peers == map[] && |s.outbox| == 1 && s.outbox[0].key == remote.key && s.conflicts == []
             && ValidRemote(remote)
    ensures HasOpen(ApplyRemote(s, peer, 0, remote).0, peer, remote.key)
  {
    assert Pending(EnsurePeer(s, peer), peer, remote.key);
    assert IsOpen(ApplyRemote(s, peer, 0, remote).0.conflicts[0], peer, remote.key);
  }

  /** What the daemon holds once it has written the server's entity under the trimmed id. */
  function Misdirected(key: Key, mine: Json, stored: Json): map<Key, Entity> {
    map[key := Entity(1, mine, false), Key(key.kind, Trim(key.id)) := Entity(1, ToLocal(key.kind, stored), false)]
  }

  /** An id with surrounding white space; the payload names no other id. */
  predicate Untrimmed(key: Key, stored: Json) {
    && Trim(key.kind) == key.kind && key.kind != "" && Trim(key.id) != "" && Trim(key.id) != key.id
    && (NamedId(Some(stored)).Some? ==> Trim(NamedId(Some(stored)).value) == Trim(key.id))
  }

  lemma {:induction false} StoredIsUntrimmed(key: Key, theirs: Json)
    requires Untrimmed(key, theirs) && theirs.Obj?
    ensures Untrimmed(key, Column(theirs)) && Column(theirs).Obj?
  {
    StoredIsAddressed(key, Some(theirs));
    hide Trim, NamedId;
  }

  lemma {:induction false} MisdirectedConflict(peer: PeerId, key: Key, mine: Json, stored: Json, s: Store)
    requires Untrimmed(key, stored) && stored.Obj?
    requires var row := Entity(1, mine, false); s == Store(map[], map[key := row], [LocalChange(key, row)], [])
    ensures var remote := RemoteOf(key, ServerEntity(1, Some(stored), false));
            && ValidRemote(remote)
            && ApplyRemote(s, peer, 0, remote).0
               == s.(peers := map[peer := Peer(0, 0)], entities := Misdirected(key, mine, stored))
  {
    var remote := RemoteOf(key, ServerEntity(1, Some(stored), false));
    var u := EnsurePeer(s, peer);
    assert !Pending(u, peer, remote.key);
  }

  lemma {:induction false} MisdirectedPull(peer: PeerId, key: Key, mine: Json, stored: Json, s: Store)
    requires Untrimmed(key, stored) && stored.Obj?
    requires s.peers == map[peer := Peer(1, 0)] && s.entities == Misdirected(key, mine, stored)
    requires |s.outbox| == 1 && s.conflicts == []
    ensures var remote := RemoteOf(key, ServerEntity(1, Some(stored), false));
            && ValidRemote(remote)
            && ApplyRemote(s, peer, 1, remote).0 == s.(peers := map[peer := Peer(1, 1)])
  {
    var remote := RemoteOf(key, ServerEntity(1, Some(stored), false));
    var u := EnsurePeer(s, peer);
    assert u == s;
    assert s.entities[remote.key := RemoteRow(s, remote)] == s.entities;
  }

  lemma {:induction false} UpToPull(cfg: Config, key: Key, mine: Json, theirs: Json)
    requires Untrimmed(key, theirs) && Uneventful(cfg, key, mine, theirs)
    ensures var s := Run(cfg, INITIAL, CollidingCreation(cfg, key, mine, theirs)[..7]);
            var e := Foreign(theirs);
            && s.store.peers == map[cfg.peer := Peer(1, 0)]
            && s.store.entities == Misdirected(key, mine, Column(theirs))
            && s.store.outbox == [LocalChange(key, Entity(1, mine, false))] && s.store.conflicts == []
            && s.server.entities == map[key := e] && s.server.log == [ServerRow(1, key, e)] && s.agent == NextPull(0)
  {
    var steps := CollidingCreation(cfg, key, mine, theirs);
    UpToSettling(cfg, key, mine, theirs);
    var s5 := Run(cfg, INITIAL, steps[..5]);
    StoredIsUntrimmed(key, theirs);
    MisdirectedConflict(cfg.peer, key, mine, Column(theirs), s5.store);
    assert steps[..6] == steps[..5] + [steps[5]];
    assert steps[..7] == steps[..6] + [steps[6]];
    RunOne(cfg, INITIAL, steps[..5], steps[5]);
    RunOne(cfg, INITIAL, steps[..6], steps[6]);
    hide Uneventful, Untrimmed, ApplyRemote, RemoteOf, ValidRemote, Run, Do, Misdirected;
    SettlesOnly(cfg, s5, LocalChange(key, Entity(1, mine, false)), Foreign(theirs));
  }

  /** A page with one rejected change is settled: the server's entity is handed over, and the change acknowledged. */
  lemma {:induction false} SettlesOnly(cfg: Config, s: System, c: LocalChange, e: ServerEntity)
    requires s.agent == Settling(Batch(0, 0, [c], 0, [Rejected(Some(e))]), 0, false)
    requires Acceptable(c.key, e)
    ensures var store := ApplyRemote(s.store, cfg.peer, 0, RemoteOf(c.key, e)).0;
            Do(cfg, Do(cfg, s, OpenConflict), AckNext) ==
              s.(store := Acknowledge(store, cfg.peer, 1), agent := NextPull(0))
  {
    hide ApplyRemote, RemoteOf, Acceptable, Acknowledge;
  }

  /** A page with one row is applied. */
  lemma {:induction false} AppliesOnly(cfg: Config, s: System, row: ServerRow)
    requires s.agent == Applying(0, [row], 0) && Acceptable(row.key, row.entity)
    ensures var t := Do(cfg, s, ApplyNext);
            && t.store == ApplyRemote(s.store, cfg.peer, row.cursor, RemoteOf(row.key, row.entity)).0
            && t.server == s.server && t.agent == Idle
  {
    hide ApplyRemote, RemoteOf, Acceptable;
  }

  lemma {:induction false} FetchesOnly(cfg: Config, s: System)
    requires s.agent == NextPull(0) && |s.server.log| == 1
             && s.server.log[0].cursor > PeerOf(s.store, cfg.peer).remoteCursor
    ensures Do(cfg, s, FetchRemote) == s.(agent := Applying(0, s.server.log, 0))
  {
    OnlyRow(s.server, PeerOf(s.store, cfg.peer).remoteCursor);
    hide Pull;
  }

  /** With any other id the collision is reported to nobody: the run ends with nothing on its way for the entity, and
      the device still shows its own content. Hence every run converges on an entity only if its id is trimmed. */
  lemma {:induction false} UntrimmedIdDiverges(cfg: Config, key: Key, mine: Json, theirs: Json)
    requires Untrimmed(key, theirs) && Uneventful(cfg, key, mine, theirs) && mine != ToLocal(key.kind, Column(theirs))
    ensures var s := Run(cfg, INITIAL, CollidingCreation(cfg, key, mine, theirs));
            Quiescent(cfg, s, key) && !Agrees(s, key)
  {
    var steps := CollidingCreation(cfg, key, mine, theirs);
    UpToPull(cfg, key, mine, theirs);
    var s7 := Run(cfg, INITIAL, steps[..7]);
    StoredIsUntrimmed(key, theirs);
    MisdirectedPull(cfg.peer, key, mine, Column(theirs), s7.store);
    assert steps[..8] == steps[..7] + [steps[7]];
    assert steps == steps[..8] + [steps[8]];
    RunOne(cfg, INITIAL, steps[..7], steps[7]);
    RunOne(cfg, INITIAL, steps[..8], steps[8]);
    hide Lenient, NoSecret, ApplyRemote, RemoteOf, ValidRemote, Run, Do;
    FetchesOnly(cfg, s7);
    AppliesOnly(cfg, Run(cfg, INITIAL, steps[..8]), ServerRow(1, key, Foreign(theirs)));
  }

  // ---- a payload that names another entity ----

  /** Another device pushes an entity; then one undisturbed cycle. */
  function ForeignCreation(cfg: Config, key: Key, theirs: Json): seq<Step> {
    [ForeignPush(Creation(cfg, key, theirs), 1), BeginCycle, FetchOutbox, FetchRemote, ApplyNext]
  }

  lemma {:induction false} UpToApplying(cfg: Config, key: Key, theirs: Json)
    requires TakesTheirs(cfg, key, theirs)
    ensures var e := Foreign(theirs);
            var s := Run(cfg, INITIAL, ForeignCreation(cfg, key, theirs)[..4]);
            && s.store == INITIAL.store && s.server.entities == map[key := e] && s.server.log == [ServerRow(1, key, e)]
            && s.agent == Applying(0, [ServerRow(1, key, e)], 0)
  {
    var steps := ForeignCreation(cfg, key, theirs);
    var s1 := Do(cfg, INITIAL, steps[0]);
    TheirsIsValid(cfg, key, theirs);
    ForeignCreated(cfg, INITIAL, key, theirs);
    RunFour(cfg, INITIAL, steps[..4]);
    hide TakesTheirs, Run, Do;
    FetchesRemote(cfg, s1);
  }

  /** With an empty outbox the first page of remote changes is fetched. */
  lemma {:induction false} FetchesRemote(cfg: Config, s: System)
    requires s.agent.Idle? && s.store == INITIAL.store && |s.server.log| == 1 && s.server.log[0].cursor > 0
    ensures Do(cfg, Do(cfg, Do(cfg, s, BeginCycle), FetchOutbox), FetchRemote) ==
              s.(agent := Applying(0, s.server.log, 0))
  {
    OnlyRow(s.server, 0);
    hide Pull;
  }

  lemma {:induction false} OnlyRow(v: Server, after: nat)
    requires |v.log| == 1 && v.log[0].cursor > after
    ensures Pull(v, after) == v.log
  {
  }

  lemma {:induction false} RunFour(cfg: Config, s: System, steps: seq<Step>)
    requires |steps| == 4
    ensures Run(cfg, s, steps) == Do(cfg, Do(cfg, Do(cfg, Do(cfg, s, steps[0]), steps[1]), steps[2]), steps[3])
  {
    hide Do;
    assert steps[..1] == [] + [steps[0]];
    assert steps[..2] == steps[..1] + [steps[1]];
    assert steps[..3] == steps[..2] + [steps[2]];
    assert steps == steps[..3] + [steps[3]];
    RunOne(cfg, s, [], steps[0]);
    RunOne(cfg, s, steps[..1], steps[1]);
    RunOne(cfg, s, steps[..2], steps[2]);
    RunOne(cfg, s, steps[..3], steps[3]);
  }

  /** For every entity and every payload that names another one, the run ends with nothing on its way for the entity,
      and the device does not have it: its content has gone to the entity named. With `Converges`, every run converges
      on an entity only if foreign payloads name no other entity. */
  lemma {:induction false} MisaddressedPayloadDiverges(cfg: Config, key: Key, theirs: Json)
    requires TakesTheirs(cfg, key, theirs) && Trimmed(key)
    requires NamedId(Some(theirs)).Some? && Trim(NamedId(Some(theirs)).value) != key.id
    ensures var s := Run(cfg, INITIAL, ForeignCreation(cfg, key, theirs));
            && Quiescent(cfg, s, key) && !Agrees(s, key)
            && Key(key.kind, Trim(NamedId(Some(theirs)).value)) in s.store.entities
  {
    var steps := ForeignCreation(cfg, key, theirs);
    UpToApplying(cfg, key, theirs);
    assert steps == steps[..4] + [steps[4]];
    RunOne(cfg, INITIAL, steps[..4], steps[4]);
    var e := Foreign(theirs);
    StoredIsAddressed(key, Some(theirs));
    assert ValidRemote(RemoteOf(key, e)) by {
      hide NamedId;
    }
    AppliedToEmpty(cfg.peer, RemoteOf(key, e));
    hide Do, Run, ApplyRemote;
    AppliesOnly(cfg, Run(cfg, INITIAL, steps[..4]), ServerRow(1, key, e));
  }

  lemma {:induction false} AppliedToEmpty(peer: PeerId, remote: Remote)
    requires ValidRemote(remote)
    ensures ApplyRemote(INITIAL.store, peer, 1, remote).0
         == Store(map[peer := Peer(0, 1)], map[remote.key := RemoteRow(INITIAL.store, remote)], [], [])
  {
    assert !Pending(EnsurePeer(INITIAL.store, peer), peer, remote.key);
  }

  // ---- an edit that names another entity ----

  /** The device creates an entity and pushes it. */
  function FirstPush(key: Key, payload: Json): seq<Step> {
    [Edit(key, payload, None), BeginCycle, FetchOutbox, SendNext(1)]
  }

  /** What the server has then. */
  function FirstEntity(cfg: Config, key: Key, payload: Json): ServerEntity
    requires payload.Obj?
  {
    ServerEntity(1, Some(Column(ToServer(cfg.ids, key.kind, key.id, payload).value)), false)
  }

  /** What the device has then. */
  function FirstStore(key: Key, payload: Json): Store {
    var row := Entity(1, payload, false);
    Store(map[], map[key := row], [LocalChange(key, row)], [])
  }

  lemma {:induction false} FirstSend(cfg: Config, s: System, key: Key, payload: Json)
    requires TakesMine(cfg, key, payload)
    requires var c := LocalChange(key, Entity(1, payload, false));
             s.agent == Sending(Batch(0, 0, [c], 0, [])) && s.server == INITIAL.server
    ensures var t := Do(cfg, s, SendNext(1)); var e := FirstEntity(cfg, key, payload);
            && t == s.(server := t.server, agent := t.agent) && OperationId(cfg.device, 1) in t.server.operations
            && t.server.log == [ServerRow(1, key, e)] && t.server.entities == map[key := e]
            && t.agent == Settling(s.agent.batch.(answers := [Accepted(e)]), 0, false)
  {
    hide ToServer, ContainsSecret, Column;
    var c := LocalChange(key, Entity(1, payload, false));
    var change := ChangeForServer(cfg, c, 1);
    assert change.Ok?;
    assert PageSendable(cfg, s.agent.batch);
    assert cfg.policy.reacts(s.server, change.value) == [];
    var e := FirstEntity(cfg, key, payload);
    assert s.server.log + [ServerRow(1, key, e)] == [ServerRow(1, key, e)];
    assert s.server.entities[key := e] == map[key := e];
    assert [] + [Accepted(e)] == [Accepted(e)];
  }

  lemma {:induction false} FirstPushed(cfg: Config, key: Key, payload: Json)
    requires TakesMine(cfg, key, payload)
    ensures var s := Run(cfg, INITIAL, FirstPush(key, payload)); var e := FirstEntity(cfg, key, payload);
            && s.store == FirstStore(key, payload) && OperationId(cfg.device, 1) in s.server.operations
            && s.server.log == [ServerRow(1, key, e)] && s.server.entities == map[key := e]
            && s.agent == Settling(Batch(0, 0, FirstStore(key, payload).outbox, 0, [Accepted(e)]), 0, false)
  {
    var steps := FirstPush(key, payload);
    RunFour(cfg, INITIAL, steps);
    FirstWrite(key, payload);
    hide ToServer, ContainsSecret, WriteEntity, Lenient, Run, Column;
    var s1 := Do(cfg, INITIAL, steps[0]);
    assert s1 == INITIAL.(store := FirstStore(key, payload));
    hide Do;
    var c := LocalChange(key, Entity(1, payload, false));
    FetchesOutbox(cfg, s1, c);
    FirstSend(cfg, s1.(agent := Sending(Batch(0, 0, [c], 0, []))), key, payload);
  }

  /** A page with one accepted change is settled. */
  lemma {:induction false} AcksOnly(cfg: Config, s: System, c: LocalChange, e: ServerEntity)
    requires s.agent == Settling(Batch(0, 0, [c], 0, [Accepted(e)]), 0, false)
    ensures Do(cfg, s, AckNext) == s.(store := Acknowledge(s.store, cfg.peer, 1), agent := NextPull(0))
  {
    hide Acknowledge;
  }

  /** The device creates an entity; then one undisturbed cycle. */
  function OwnCreation(key: Key, payload: Json): seq<Step> {
    FirstPush(key, payload) + [AckNext, FetchRemote, ApplyNext]
  }

  lemma {:induction false} UpToComingBack(cfg: Config, key: Key, payload: Json)
    requires TakesMine(cfg, key, payload)
    ensures var s := Run(cfg, INITIAL, OwnCreation(key, payload)[..6]); var e := FirstEntity(cfg, key, payload);
            && s.store == FirstStore(key, payload).(peers := map[cfg.peer := Peer(1, 0)])
            && s.server.log == [ServerRow(1, key, e)] && s.server.entities == map[key := e]
            && s.agent == Applying(0, [ServerRow(1, key, e)], 0)
  {
    var steps := OwnCreation(key, payload);
    var e := FirstEntity(cfg, key, payload);
    FirstPushed(cfg, key, payload);
    assert steps[..4] == FirstPush(key, payload);
    assert steps[..5] == steps[..4] + [steps[4]];
    assert steps[..6] == steps[..5] + [steps[5]];
    RunOne(cfg, INITIAL, steps[..4], steps[4]);
    RunOne(cfg, INITIAL, steps[..5], steps[5]);
    hide Do, Run, TakesMine, ToServer, Column;
    AcksOnly(cfg, Run(cfg, INITIAL, steps[..4]), LocalChange(key, Entity(1, payload, false)), e);
    FetchesOnly(cfg, Run(cfg, INITIAL, steps[..5]));
  }

  lemma {:induction false} AppliedElsewhere(peer: PeerId, key: Key, row: Entity, remote: Remote)
    requires ValidRemote(remote) && remote.key != key
    ensures var s := Store(map[peer := Peer(1, 0)], map[key := row], [LocalChange(key, row)], []);
            ApplyRemote(s, peer, 1, remote).0
            == s.(peers := map[peer := Peer(1, 1)], entities := s.entities[remote.key := RemoteRow(s, remote)])
  {
    var s := Store(map[peer := Peer(1, 0)], map[key := row], [LocalChange(key, row)], []);
    assert EnsurePeer(s, peer) == s;
    assert !Pending(s, peer, remote.key);
  }

  /** For every entity and every payload whose server form names another entity, an edit and one cycle end with nothing
      on its way for the entity and with different contents: the server's has gone to the entity named. With
      `Converges`, every run converges on an entity only if edits name no other entity. */
  lemma {:induction false} MisaddressedEditDiverges(cfg: Config, key: Key, payload: Json)
    requires TakesMine(cfg, key, payload) && Trimmed(key) && !Homeward(cfg.ids, key, payload)
    ensures var s := Run(cfg, INITIAL, OwnCreation(key, payload));
            var named := NamedId(Some(ToServer(cfg.ids, key.kind, key.id, payload).value));
            && Quiescent(cfg, s, key) && !Agrees(s, key)
            && named.Some? && Key(key.kind, Trim(named.value)) in s.store.entities
  {
    var steps := OwnCreation(key, payload);
    var e := FirstEntity(cfg, key, payload);
    UpToComingBack(cfg, key, payload);
    assert steps == steps[..6] + [steps[6]];
    RunOne(cfg, INITIAL, steps[..6], steps[6]);
    NotSteady(cfg, key, payload);
    GoesElsewhere(cfg, key, payload);
    hide Do, Run, ApplyRemote, RemoteOf, Acceptable, ToServer, ToLocal, Column, Homeward, Steady, ValidRemote,
         TakesMine;
    var s6 := Run(cfg, INITIAL, steps[..6]);
    AppliedElsewhere(cfg.peer, key, Entity(1, payload, false), RemoteOf(key, e));
    AppliesOnly(cfg, s6, ServerRow(1, key, e));
    var s := Run(cfg, INITIAL, steps);
    assert s.store.entities[key] == Entity(1, payload, false);
    assert RemoteOf(key, e).key in s.store.entities;
  }

  /** When an edit comes back to the device that made it, a conflict is opened if and only if its payload is not
      steady. */
  lemma {:induction false} OwnEditConflictsIff(cfg: Config, key: Key, payload: Json)
    requires TakesMine(cfg, key, payload) && Homeward(cfg.ids, key, payload) && key.id != ""
    ensures HasOpen(Run(cfg, INITIAL, OwnCreation(key, payload)).store, cfg.peer, key) <==> !Steady(payload)
  {
    var steps := OwnCreation(key, payload);
    var e := FirstEntity(cfg, key, payload);
    UpToComingBack(cfg, key, payload);
    assert steps == steps[..6] + [steps[6]];
    RunOne(cfg, INITIAL, steps[..6], steps[6]);
    ComesBack(cfg, key, payload);
    StoredRoundTrip(cfg.ids, key.kind, key.id, payload);
    hide Do, Run, ApplyRemote, RemoteOf, Acceptable, ToServer, ToLocal, Column, Homeward, Steady, ValidRemote,
         TakesMine;
    var s6 := Run(cfg, INITIAL, steps[..6]);
    HandedBack(s6.store, cfg.peer, RemoteOf(key, e), 1);
    AppliesOnly(cfg, s6, ServerRow(1, key, e));
  }

  lemma {:induction false} ComesBack(cfg: Config, key: Key, payload: Json)
    requires IsDaemonKind(key.kind) && Homeward(cfg.ids, key, payload) && key.id != ""
    ensures var e := FirstEntity(cfg, key, payload);
            && Acceptable(key, e) && ValidRemote(RemoteOf(key, e))
            && RemoteOf(key, e) == Remote(key, 1, Some(ToLocal(key.kind, e.payload.value)), false)
  {
    var server := ToServer(cfg.ids, key.kind, key.id, payload).value;
    StoredIsAddressed(key, Some(server));
    ColumnKeepsObjects(server);
    hide ToServer, NamedId, Trim, Column, ToLocal;
  }

  lemma {:induction false} NotSteady(cfg: Config, key: Key, payload: Json)
    requires payload.Obj? && Trimmed(key) && !Homeward(cfg.ids, key, payload)
    ensures !Shows(Entity(1, payload, false), key.kind, FirstEntity(cfg, key, payload))
  {
    if Plain(payload) {
      ServerFormIsAddressed(cfg.ids, key, payload);
    }
    StoredRoundTrip(cfg.ids, key.kind, key.id, payload);
    hide ToServer, ToLocal, Column, Homeward;
  }

  lemma {:induction false} GoesElsewhere(cfg: Config, key: Key, payload: Json)
    requires payload.Obj? && IsDaemonKind(key.kind) && Trimmed(key) && !Homeward(cfg.ids, key, payload)
    ensures var e := FirstEntity(cfg, key, payload);
            var named := NamedId(Some(ToServer(cfg.ids, key.kind, key.id, payload).value));
            && Acceptable(key, e) && ValidRemote(RemoteOf(key, e)) && RemoteOf(key, e).key != key
            && named.Some? && RemoteOf(key, e).key == Key(key.kind, Trim(named.value))
  {
    StoredIsAddressed(key, Some(ToServer(cfg.ids, key.kind, key.id, payload).value));
    hide ToServer, NamedId, Trim, Column;
    ColumnKeepsObjects(ToServer(cfg.ids, key.kind, key.id, payload).value);
  }

  lemma {:induction false} ColumnKeepsObjects(json: Json)
    ensures Column(json).Obj? <==> json.Obj?
  {
  }
}
