/** What deciding a conflict leads to. */
module SyncDecisions {
  import opened Outcomes
  import opened SyncTypes
  import opened SyncPayload
  import opened SyncStore
  import opened SyncServer
  import opened SyncSystem
  import opened SyncInvariant
  import opened SyncConvergence
  import opened SyncSettleSteps
  import opened SyncGrounding
  import opened SyncLiveness

  // ---- keep_local ----

  /** In every run an open conflict has a local side, so keeping it fails if and only if the outbox already holds the
      revision after the remote one. */
  lemma {:induction false} KeepLocalFailsIff(cfg: Config, steps: seq<Step>, id: nat)
    requires WellFormedRun(cfg, steps)
    ensures var s := Run(cfg, INITIAL, steps).store;
            id < |s.conflicts| && IsOpen(s.conflicts[id], cfg.peer, s.conflicts[id].key) ==>
              && DecideReady(Run(cfg, INITIAL, steps)) && s.conflicts[id].local.Some?
              && (Resolve(s, cfg.peer, id, KeepLocal).Err? <==>
                  HasRevision(s.outbox, s.conflicts[id].key, s.conflicts[id].remote.revision + 1))
  {
    hide Inv, Live, Run, ValidRemote, HasRevision, ConflictOk, OneOpen, Plain, KeyOk;
    RunLives(cfg, steps);
    var s := Run(cfg, INITIAL, steps);
    HasLocalSides(cfg, s);
    Parts(cfg, s);
    forall i | 0 <= i < |s.store.conflicts|
      ensures ValidRemote(s.store.conflicts[i].remote)
    {
      RemoteIsValid(cfg.ids, s.store.conflicts[i]);
    }
  }

  lemma {:induction false} RemoteIsValid(ids: IdScheme, c: Conflict)
    requires ConflictOk(ids, c)
    ensures ValidRemote(c.remote)
  {
  }

  // ---- use_remote ----

  /** After `use_remote` the entity can be edited if and only if the outbox does not hold the revision after the chosen
      one. */
  lemma {:induction false} EditAfterUseRemote(s: Store, peer: PeerId, id: nat, payload: Json)
    requires forall i :: 0 <= i < |s.conflicts| ==>
               ValidRemote(s.conflicts[i].remote) && s.conflicts[i].remote.key == s.conflicts[i].key
    requires Resolve(s, peer, id, UseRemote).Ok? && payload.Obj?
    ensures var c := s.conflicts[id]; var t := Resolve(s, peer, id, UseRemote).value;
            && c.key in t.entities && t.entities[c.key] == RemoteRow(s, c.remote)
            && (TombstoneEntity(t, c.key, None).Ok? <==> !HasRevision(s.outbox, c.key, c.remote.revision + 1))
            && (c.remote.tombstone || c.remote.payload != Some(payload) ==>
                  (WriteEntity(t, c.key, payload, None).Ok? <==> !HasRevision(s.outbox, c.key, c.remote.revision + 1)))
  {
  }

  /** Materialising other entities never publishes this one. */
  ghost predicate Undependent(policy: Policy, key: Key) {
    forall v, c, i :: 0 <= i < |policy.reacts(v, c)| ==> policy.reacts(v, c)[i].key != key
  }

  /** A change of the entity that the server has not answered yet and that builds on the given revision. */
  predicate BuildsOn(cfg: Config, v: Server, outbox: seq<LocalChange>, i: nat, key: Key, revision: nat)
    requires i < |outbox|
  {
    outbox[i].key == key && outbox[i].entity.revision == revision + 1 && !Sent(cfg, v, i)
  }

  lemma {:induction false} ReactionsSpare(v: Server, reactions: seq<Reaction>, of: Key, key: Key, cursor: nat)
    requires forall i :: 0 <= i < |reactions| ==> reactions[i].key != key
    ensures CurrentEntity(ReactAll(v, reactions, of, cursor), key) == CurrentEntity(v, key)
  {
    hide Trimmed, Plain;
    if reactions != [] {
      var n := |reactions| - 1;
      ReactionsSpare(v, reactions[..n], of, key, cursor);
      ReactionGrows(ReactAll(v, reactions[..n], of, cursor), reactions[n], key, cursor + n);
    }
  }

  /** What one handled change does to the entity: only a new change on the current revision replaces it. */
  lemma {:induction false} ResponseTo(cfg: Config, v: Server, c: LocalChange, cursor: nat, key: Key)
    requires Undependent(cfg.policy, key) && Response(cfg, v, c, cursor).Ok? && c.entity.revision >= 1
    ensures var w := Response(cfg, v, c, cursor).value.0;
            && (CurrentEntity(w, key) == CurrentEntity(v, key)
                || CurrentRevision(w, key) == CurrentRevision(v, key) + 1)
            && (CurrentEntity(w, key) != CurrentEntity(v, key) <==>
                  c.key == key && c.entity.revision == CurrentRevision(v, key) + 1
                  && OperationId(cfg.device, cursor) !in v.operations)
            && forall i: nat :: i + 1 != cursor ==> (Sent(cfg, w, i) <==> Sent(cfg, v, i))
  {
    hide ToServer, ReactAll, Recorded;
    var change := ChangeForServer(cfg, c, cursor).value;
    assert change.operation == OperationId(cfg.device, cursor) && change.key == c.key
           && change.base == c.entity.revision - 1;
    var reactions := cfg.policy.reacts(v, change);
    ReactionsSpare(v, reactions, c.key, key, NextCursor(v));
    ReactionsGrow(v, reactions, c.key, NextCursor(v));
    hide Undependent;
  }

  /** An entity that is replaced gets a higher revision. */
  lemma {:induction false} RevisionGrows(cfg: Config, v: Server, outbox: seq<LocalChange>, i: nat, key: Key)
    requires Undependent(cfg.policy, key) && Pushable(cfg, v, outbox, i)
    requires forall j :: 0 <= j < |outbox| ==> outbox[j].entity.revision >= 1
    ensures var w := ServerAfter(cfg, v, outbox, i);
            CurrentEntity(w, key) == CurrentEntity(v, key) || CurrentRevision(w, key) > CurrentRevision(v, key)
    decreases |outbox| - i
  {
    hide Undependent, Response, Deliverable;
    if i < |outbox| {
      ResponseTo(cfg, v, outbox[i], i + 1, key);
      RevisionGrows(cfg, Response(cfg, v, outbox[i], i + 1).value.0, outbox, i + 1, key);
    }
  }

  /** Once everything that is pending has been pushed, the server has the entity it had if and only if no pending change
      builds on that. */
  lemma {:induction false} EntityStaysIff(cfg: Config, v: Server, outbox: seq<LocalChange>, i: nat, key: Key)
    requires Undependent(cfg.policy, key) && Pushable(cfg, v, outbox, i)
    requires forall j :: 0 <= j < |outbox| ==> outbox[j].entity.revision >= 1
    ensures CurrentEntity(ServerAfter(cfg, v, outbox, i), key) == CurrentEntity(v, key) <==>
            forall j :: i <= j < |outbox| ==> !BuildsOn(cfg, v, outbox, j, key, CurrentRevision(v, key))
    decreases |outbox| - i
  {
    hide Undependent, Response, Deliverable, Sent;
    if i < |outbox| {
      var w := Response(cfg, v, outbox[i], i + 1).value.0;
      ResponseTo(cfg, v, outbox[i], i + 1, key);
      SentMeans(cfg, v, i);
      EntityStaysIff(cfg, w, outbox, i + 1, key);
      if CurrentEntity(w, key) == CurrentEntity(v, key) {
        SameRevision(v, w, key);
        assert forall j :: i + 1 <= j < |outbox| ==>
            (BuildsOn(cfg, w, outbox, j, key, CurrentRevision(w, key)) <==>
               BuildsOn(cfg, v, outbox, j, key, CurrentRevision(v, key)));
      } else {
        assert BuildsOn(cfg, v, outbox, i, key, CurrentRevision(v, key));
        RevisionGrows(cfg, w, outbox, i + 1, key);
        SameRevision(ServerAfter(cfg, v, outbox, i), v, key);
      }
    }
  }

  lemma {:induction false} SentMeans(cfg: Config, v: Server, i: nat)
    ensures Sent(cfg, v, i) <==> OperationId(cfg.device, i + 1) in v.operations
  {
  }

  lemma {:induction false} SameRevision(v: Server, w: Server, key: Key)
    ensures CurrentEntity(v, key) == CurrentEntity(w, key) ==> CurrentRevision(v, key) == CurrentRevision(w, key)
  {
  }

  /** The server's entity is what the user chose. */
  predicate Holds(v: Server, chosen: Remote) {
    CurrentEntity(v, chosen.key).Some? && RemoteOf(chosen.key, CurrentEntity(v, chosen.key).value) == chosen
  }

  /** The remote side of an open conflict is a revision that the server has had, and its present one if the numbers
      agree. */
  lemma {:induction false} ChosenIsKnown(cfg: Config, s: System, c: Conflict)
    requires ServerOk(s.server) && c.remote.key == c.key
    requires RemoteKnown(s.server.log, PeerOf(s.store, cfg.peer).remoteCursor, c.key, c.remote)
    ensures c.remote.revision <= CurrentRevision(s.server, c.key)
    ensures Holds(s.server, c.remote) <==> CurrentRevision(s.server, c.key) == c.remote.revision
  {
    hide NamedId, Trim, ToLocal, Addressed;
    var log := s.server.log;
    var i :| 0 <= i < |log| && log[i].key == c.key && c.remote == RemoteOf(c.key, log[i].entity);
    assert RowFits(s.server, log[i]);
    assert Logged(log, c.key, s.server.entities[c.key]);
    var n :| 0 <= n < |log| && log[n].key == c.key && log[n].entity == s.server.entities[c.key];
    assert log[i].entity.revision == log[n].entity.revision ==> i == n;
  }

  /** No change of the entity still to be answered builds on what the user chose. */
  predicate NothingBuildsOn(cfg: Config, s: System, chosen: Remote) {
    forall j :: NextIndex(cfg, s) <= j < |s.store.outbox| ==>
      !BuildsOn(cfg, s.server, s.store.outbox, j, chosen.key, chosen.revision)
  }

  /** In every run, `use_remote` writes the remote side of an open conflict. If the agent can finish, the server has
      that entity in the end if and only if it has it at the moment of the decision and no change still to be answered
      builds on it. */
  lemma {:induction false} UseRemoteSticksIff(cfg: Config, steps: seq<Step>, id: nat) returns (n: nat)
    requires WellFormedRun(cfg, steps)
    requires var s := Run(cfg, INITIAL, steps).store;
             && id < |s.conflicts| && IsOpen(s.conflicts[id], cfg.peer, s.conflicts[id].key)
             && Undependent(cfg.policy, s.conflicts[id].key)
    requires Ready(cfg, Run(cfg, INITIAL, steps + [Decide(id, UseRemote)]))
    ensures var s, t := Run(cfg, INITIAL, steps), Run(cfg, INITIAL, steps + [Decide(id, UseRemote)]);
            var chosen := s.store.conflicts[id].remote; var u := Course(cfg, t, n);
            && ValidRemote(chosen) && chosen.key == s.store.conflicts[id].key
            && Lookup(t.store, chosen.key) == Some(RemoteRow(s.store, chosen))
            && Drained(cfg, u)
            && (Holds(u.server, chosen) <==> Holds(s.server, chosen) && NothingBuildsOn(cfg, t, chosen))
            && (!HasOpen(u.store, cfg.peer, chosen.key) ==> Agrees(u, chosen.key))
  {
    hide Run, Do, Inv, Live, Ready, Course, Drained, Holds, NothingBuildsOn, WellFormed, Undependent, Agrees, RemoteRow;
    var s := Run(cfg, INITIAL, steps);
    var more := steps + [Decide(id, UseRemote)];
    var t := Run(cfg, INITIAL, more);
    var c := s.store.conflicts[id];
    assert WellFormed(cfg, Decide(id, UseRemote)) by {
      DecisionIsWellFormed(cfg, id);
    }
    RunLives(cfg, steps);
    RunLives(cfg, more);
    RunOnce(cfg, steps, Decide(id, UseRemote));
    Decided(cfg, s, id);
    n := CourseDrains(cfg, t);
    var u := Course(cfg, t, n);
    StaysChosen(cfg, s, t, u, c);
    if !HasOpen(u.store, cfg.peer, c.key) {
      DrainedAgrees(cfg, u, c.key);
    }
  }

  lemma {:induction false} DecisionIsWellFormed(cfg: Config, id: nat)
    ensures WellFormed(cfg, Decide(id, UseRemote))
  {
  }

  lemma {:induction false} RunOnce(cfg: Config, steps: seq<Step>, step: Step)
    ensures Run(cfg, INITIAL, steps + [step]) == Do(cfg, Run(cfg, INITIAL, steps), step)
  {
    assert (steps + [step])[..|steps|] == steps;
  }

  /** The decision writes the row and closes the conflict. */
  lemma {:induction false} Decided(cfg: Config, s: System, id: nat)
    requires Inv(cfg, s) && id < |s.store.conflicts|
    requires IsOpen(s.store.conflicts[id], cfg.peer, s.store.conflicts[id].key)
    ensures var c := s.store.conflicts[id]; var t := Do(cfg, s, Decide(id, UseRemote));
            && ValidRemote(c.remote) && c.remote.key == c.key
            && Lookup(t.store, c.key) == Some(RemoteRow(s.store, c.remote))
            && t.server == s.server
            && ServerOk(s.server) && RemoteKnown(s.server.log, PeerOf(s.store, cfg.peer).remoteCursor, c.key, c.remote)
  {
    hide ServerOk, OperationsOk, AgentOk, RemoteCursorOk, RemoteKnown, Homeward, RowOk;
    assert ConflictOk(cfg.ids, s.store.conflicts[id]);
    assert KeyOk(s.store, s.server.log, cfg.peer, s.store.conflicts[id].key);
    assert DecideReady(s);
  }

  lemma {:induction false} StaysChosen(cfg: Config, s: System, t: System, u: System, c: Conflict)
    requires Inv(cfg, t) && Ready(cfg, t) && t.server == s.server && Undependent(cfg.policy, c.key)
    requires c.remote.key == c.key && ServerOk(s.server)
    requires RemoteKnown(s.server.log, PeerOf(s.store, cfg.peer).remoteCursor, c.key, c.remote)
    requires u.server == ServerAfter(cfg, t.server, t.store.outbox, NextIndex(cfg, t))
    ensures Holds(u.server, c.remote) <==> Holds(s.server, c.remote) && NothingBuildsOn(cfg, t, c.remote)
  {
    hide Inv, Undependent, ServerOk, RemoteKnown, NextIndex, AllDeliverable, AllSendable, BuildsOn;
    OutboxRevisions(cfg, t);
    ChosenIsKnown(cfg, s, c);
    EntityStaysIff(cfg, t.server, t.store.outbox, NextIndex(cfg, t), c.key);
    RevisionGrows(cfg, t.server, t.store.outbox, NextIndex(cfg, t), c.key);
    HoldsMeans(u.server, c.remote);
    SameRevision(u.server, s.server, c.key);
  }

  lemma {:induction false} HoldsMeans(v: Server, chosen: Remote)
    ensures Holds(v, chosen) ==> CurrentRevision(v, chosen.key) == chosen.revision
  {
  }

  lemma {:induction false} OutboxRevisions(cfg: Config, s: System)
    requires Inv(cfg, s)
    ensures forall j :: 0 <= j < |s.store.outbox| ==> s.store.outbox[j].entity.revision >= 1
  {
    hide ServerOk, OperationsOk, AgentOk, RemoteCursorOk, KeyOk, Homeward, ConflictOk;
  }
}
