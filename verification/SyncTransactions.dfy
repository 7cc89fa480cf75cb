/** What each transaction of the daemon and of the control plane does to the tables, row by row, and when it fails. */
module SyncTransactions {
  import opened Outcomes
  import opened SyncTypes
  import opened SyncPayload
  import opened SyncStore
  import opened SyncServer
  import opened SyncSystem

  // ---- entities.put and entities.delete ----

  /** The revision of a row; zero if there is none. */
  function Present(s: Store, key: Key): nat {
    if key in s.entities then s.entities[key].revision else 0
  }

  /** Exactly one row has been written, and logged as the last change. */
  ghost predicate WroteOne(s: Store, t: Store, key: Key, e: Entity) {
    && key in t.entities && t.entities[key] == e
    && (forall k :: k in s.entities ==> k in t.entities && (k != key ==> t.entities[k] == s.entities[k]))
    && (forall k :: k in t.entities ==> k == key || k in s.entities)
    && |t.outbox| == |s.outbox| + 1 && t.outbox[|s.outbox|] == LocalChange(key, e)
    && (forall i :: 0 <= i < |s.outbox| ==> t.outbox[i] == s.outbox[i])
    && t.peers == s.peers && t.conflicts == s.conflicts
  }

  /** The outbox has a change of the entity with this revision. */
  predicate Taken(s: Store, key: Key, revision: nat) {
    exists i :: 0 <= i < |s.outbox| && s.outbox[i].key == key && s.outbox[i].entity.revision == revision
  }

  /** What writing an entity comes to: the row is live and has the payload; unless it was so before, its revision is one
      higher and it is logged. It fails on what is not an object, on another revision than expected, and on a revision
      that is already logged. */
  ghost predicate PutResult(s: Store, key: Key, payload: Json, expected: Option<nat>, r: Result<Store, SyncError>) {
    var unexpected := expected.Some? && expected.value != Present(s, key);
    var same := key in s.entities && !s.entities[key].tombstone && s.entities[key].payload == payload;
    && (r == Err(NotAnObject) <==> !payload.Obj?)
    && (r == Err(RevisionConflict) <==> payload.Obj? && unexpected)
    && (r == Err(DuplicateRevision) <==> payload.Obj? && !unexpected && !same && Taken(s, key, Present(s, key) + 1))
    && (r.Err? ==> r.error == NotAnObject || r.error == RevisionConflict || r.error == DuplicateRevision)
    && (r.Ok? ==>
          && key in r.value.entities && !r.value.entities[key].tombstone
          && r.value.entities[key].payload == payload)
    && (r.Ok? && same ==> r.value == s)
    && (r.Ok? && !same ==> WroteOne(s, r.value, key, Entity(Present(s, key) + 1, payload, false)))
  }

  lemma {:induction false} PutMeans(s: Store, key: Key, payload: Json, expected: Option<nat>)
    ensures PutResult(s, key, payload, expected, WriteEntity(s, key, payload, expected))
  {
    var e := Entity(Present(s, key) + 1, payload, false);
    assert HasRevision(s.outbox, key, e.revision) <==> Taken(s, key, e.revision);
  }

  /** What deleting an entity comes to: a tombstone one revision up, with the payload that was there, and logged. */
  ghost predicate DeleteResult(s: Store, key: Key, expected: Option<nat>, r: Result<Store, SyncError>) {
    var unexpected := expected.Some? && expected.value != Present(s, key);
    && (r == Err(NoSuchEntity) <==> key !in s.entities)
    && (r == Err(RevisionConflict) <==> key in s.entities && unexpected)
    && (r == Err(DuplicateRevision) <==> key in s.entities && !unexpected && Taken(s, key, Present(s, key) + 1))
    && (r.Err? ==> r.error == NoSuchEntity || r.error == RevisionConflict || r.error == DuplicateRevision)
    && (r.Ok? ==> key in s.entities
                  && WroteOne(s, r.value, key, Entity(Present(s, key) + 1, s.entities[key].payload, true)))
  }

  lemma {:induction false} DeleteMeans(s: Store, key: Key, expected: Option<nat>)
    ensures DeleteResult(s, key, expected, TombstoneEntity(s, key, expected))
  {
    assert HasRevision(s.outbox, key, Present(s, key) + 1) <==> Taken(s, key, Present(s, key) + 1);
  }

  // ---- sync.ack_local and sync.apply_remote ----

  /** Only this peer's row has changed, to the given cursors. */
  ghost predicate MovedPeer(s: Store, t: Store, peer: PeerId, local: nat, remote: nat) {
    && peer in t.peers && t.peers[peer] == Peer(local, remote)
    && (forall p :: p in s.peers ==> p in t.peers && (p != peer ==> t.peers[p] == s.peers[p]))
    && (forall p :: p in t.peers ==> p == peer || p in s.peers)
  }

  function LocalCursor(s: Store, peer: PeerId): nat {
    if peer in s.peers then s.peers[peer].localCursor else 0
  }

  function RemoteCursor(s: Store, peer: PeerId): nat {
    if peer in s.peers then s.peers[peer].remoteCursor else 0
  }

  lemma {:induction false} AcknowledgeMeans(s: Store, peer: PeerId, cursor: nat)
    ensures var t := Acknowledge(s, peer, cursor);
            && t.entities == s.entities && t.outbox == s.outbox && t.conflicts == s.conflicts
            && exists local: nat :: MovedPeer(s, t, peer, local, RemoteCursor(s, peer))
                                    && local >= cursor && local >= LocalCursor(s, peer)
                                    && (local == cursor || local == LocalCursor(s, peer))
  {
    var local := if LocalCursor(s, peer) < cursor then cursor else LocalCursor(s, peer);
    assert MovedPeer(s, Acknowledge(s, peer, cursor), peer, local, RemoteCursor(s, peer));
  }

  /** A change of the entity that this peer has not acknowledged. */
  predicate Unacknowledged(s: Store, peer: PeerId, key: Key) {
    exists i :: LocalCursor(s, peer) <= i < |s.outbox| && s.outbox[i].key == key
  }

  predicate InConflict(s: Store, peer: PeerId, key: Key) {
    exists i :: 0 <= i < |s.conflicts| && s.conflicts[i].peer == peer && s.conflicts[i].key == key
                && s.conflicts[i].resolution.None?
  }

  /** The row has the same revision with another content. */
  predicate Contradicts(s: Store, remote: Remote) {
    && remote.key in s.entities && s.entities[remote.key].revision == remote.revision
    && (s.entities[remote.key].tombstone != remote.tombstone
        || (!remote.tombstone && remote.payload != Some(s.entities[remote.key].payload)))
  }

  /** One conflict, the one with this id, now opposes the present row and the remote entity: it was the open one, or
      else is new. */
  ghost predicate RecordedIn(s: Store, t: Store, peer: PeerId, remote: Remote, id: nat) {
    && id < |t.conflicts|
    && t.conflicts[id] ==
         Conflict(peer, remote.key, if remote.key in s.entities then Some(s.entities[remote.key]) else None,
                                   remote, None)
    && (if InConflict(s, peer, remote.key) then
          && |t.conflicts| == |s.conflicts| && id < |s.conflicts|
          && s.conflicts[id].peer == peer && s.conflicts[id].key == remote.key && s.conflicts[id].resolution.None?
        else |t.conflicts| == |s.conflicts| + 1 && id == |s.conflicts|)
    && forall i :: 0 <= i < |s.conflicts| && i != id ==> t.conflicts[i] == s.conflicts[i]
  }

  /** The row is the remote entity; a deletion keeps the payload that was there. */
  ghost predicate TookRow(s: Store, t: Store, remote: Remote) {
    && remote.key in t.entities
    && t.entities[remote.key].revision == remote.revision && t.entities[remote.key].tombstone == remote.tombstone
    && (!remote.tombstone ==> remote.payload == Some(t.entities[remote.key].payload))
    && (remote.tombstone ==>
          t.entities[remote.key].payload ==
            if remote.key in s.entities then s.entities[remote.key].payload else Obj(map[]))
    && (forall k :: k in s.entities ==> k in t.entities && (k != remote.key ==> t.entities[k] == s.entities[k]))
    && (forall k :: k in t.entities ==> k == remote.key || k in s.entities)
  }

  /** What applying a remote entity comes to. The status tells which of three things happened: a conflict was recorded,
      because a change is pending, a conflict is open or the revision is known with another content; the entity was
      older than the row; or it became the row. The remote cursor moves up to the given one in each case. */
  lemma {:induction false} ApplyMeans(s: Store, peer: PeerId, cursor: nat, remote: Remote)
    requires ValidRemote(remote)
    ensures var (t, status) := ApplyRemote(s, peer, cursor, remote);
            var blocked :=
              Unacknowledged(s, peer, remote.key) || InConflict(s, peer, remote.key) || Contradicts(s, remote);
            && t.outbox == s.outbox
            && MovedPeer(s, t, peer, LocalCursor(s, peer),
                         if RemoteCursor(s, peer) < cursor then cursor else RemoteCursor(s, peer))
            && (status.Conflicted? <==> blocked)
            && (status.IgnoredStale? <==> !blocked && Present(s, remote.key) > remote.revision)
            && (status.Applied? <==> !blocked && Present(s, remote.key) <= remote.revision)
            && (status.Conflicted? ==> t.entities == s.entities && RecordedIn(s, t, peer, remote, status.id))
            && (!status.Conflicted? ==> t.conflicts == s.conflicts)
            && (status.IgnoredStale? ==> t.entities == s.entities)
            && (status.Applied? ==> TookRow(s, t, remote))
  {
    hide FindOpen, ApplyRemote, MovedPeer, RecordedIn, TookRow, ValidRemote;
    if Unacknowledged(s, peer, remote.key) || InConflict(s, peer, remote.key) || Contradicts(s, remote) {
      ApplyRecords(s, peer, cursor, remote);
    } else {
      ApplyTakes(s, peer, cursor, remote);
    }
  }

  /** The guards of the transaction. */
  lemma {:induction false} GuardsMean(s: Store, peer: PeerId, remote: Remote)
    ensures var u := EnsurePeer(s, peer);
            && (Pending(u, peer, remote.key) <==> Unacknowledged(s, peer, remote.key))
            && (FindOpen(u.conflicts, peer, remote.key).Some? <==> InConflict(s, peer, remote.key))
            && (Diverged(u, remote) <==> Contradicts(s, remote))
  {
    OpenMeans(s, peer, remote.key);
    hide FindOpen;
  }

  lemma {:induction false} ApplyRecords(s: Store, peer: PeerId, cursor: nat, remote: Remote)
    requires ValidRemote(remote)
    requires Unacknowledged(s, peer, remote.key) || InConflict(s, peer, remote.key) || Contradicts(s, remote)
    ensures var (t, status) := ApplyRemote(s, peer, cursor, remote);
            && t.outbox == s.outbox && t.entities == s.entities
            && MovedPeer(s, t, peer, LocalCursor(s, peer),
                         if RemoteCursor(s, peer) < cursor then cursor else RemoteCursor(s, peer))
            && status.Conflicted? && RecordedIn(s, t, peer, remote, status.id)
  {
    GuardsMean(s, peer, remote);
    hide FindOpen, Pending, Diverged, Unacknowledged, Contradicts, InConflict;
  }

  lemma {:induction false} ApplyTakes(s: Store, peer: PeerId, cursor: nat, remote: Remote)
    requires ValidRemote(remote)
    requires !Unacknowledged(s, peer, remote.key) && !InConflict(s, peer, remote.key) && !Contradicts(s, remote)
    ensures var (t, status) := ApplyRemote(s, peer, cursor, remote);
            && t.outbox == s.outbox && t.conflicts == s.conflicts
            && MovedPeer(s, t, peer, LocalCursor(s, peer),
                         if RemoteCursor(s, peer) < cursor then cursor else RemoteCursor(s, peer))
            && (Present(s, remote.key) > remote.revision ==> status.IgnoredStale? && t.entities == s.entities)
            && (Present(s, remote.key) <= remote.revision ==> status.Applied? && TookRow(s, t, remote))
  {
    GuardsMean(s, peer, remote);
    hide FindOpen, Pending, Diverged, Unacknowledged, Contradicts, InConflict;
  }

  lemma {:induction false} OpenMeans(s: Store, peer: PeerId, key: Key)
    ensures FindOpen(s.conflicts, peer, key).Some? <==> InConflict(s, peer, key)
  {
    var found := FindOpen(s.conflicts, peer, key);
    hide FindOpen;
    if found.Some? {
      assert IsOpen(s.conflicts[found.value], peer, key);
    } else {
      assert forall i :: 0 <= i < |s.conflicts| ==> !IsOpen(s.conflicts[i], peer, key);
    }
  }

  // ---- sync.resolve_conflict ----

  /** The conflict is decided; nothing else in the table changes. */
  ghost predicate Closed(s: Store, t: Store, id: nat, resolution: Resolution) {
    && id < |s.conflicts| == |t.conflicts| && t.conflicts[id] == s.conflicts[id].(resolution := Some(resolution))
    && forall i :: 0 <= i < |s.conflicts| && i != id ==> t.conflicts[i] == s.conflicts[i]
  }

  /** What deciding a conflict comes to. */
  lemma {:induction false} ResolveMeans(s: Store, peer: PeerId, id: nat, resolution: Resolution)
    requires forall i :: 0 <= i < |s.conflicts| ==> ValidRemote(s.conflicts[i].remote)
    ensures var r := Resolve(s, peer, id, resolution);
            var open := id < |s.conflicts| && s.conflicts[id].peer == peer && s.conflicts[id].resolution.None?;
            && (r == Err(NoSuchConflict) <==> !open)
            && (r == Err(LocalEntityMissing) <==> open && resolution.KeepLocal? && s.conflicts[id].local.None?)
            && (r == Err(DuplicateRevision) <==>
                  && open && resolution.KeepLocal? && s.conflicts[id].local.Some?
                  && Taken(s, s.conflicts[id].key, s.conflicts[id].remote.revision + 1))
            && (r.Err? ==> r.error == NoSuchConflict || r.error == LocalEntityMissing || r.error == DuplicateRevision)
            && (r.Ok? ==> Closed(s, r.value, id, resolution) && r.value.peers == s.peers)
            && (r.Ok? && resolution.UseRemote? ==>
                  r.value.outbox == s.outbox && TookRow(s, r.value, s.conflicts[id].remote))
            && (r.Ok? && resolution.KeepLocal? ==>
                  var c := s.conflicts[id];
                  && c.local.Some?
                  && WroteOne(s, r.value.(conflicts := s.conflicts), c.key,
                              Entity(c.remote.revision + 1, c.local.value.payload, c.local.value.tombstone)))
  {
    if id < |s.conflicts| {
      var revision := s.conflicts[id].remote.revision + 1;
      assert HasRevision(s.outbox, s.conflicts[id].key, revision) <==> Taken(s, s.conflicts[id].key, revision);
    }
  }

  // ---- the control plane ----

  /** Exactly one entity has got its next revision, and a row of it at the end of the log. */
  ghost predicate CommittedOne(v: Server, w: Server, key: Key, payload: Option<Json>, tombstone: bool, cursor: nat) {
    var e := ServerEntity((if key in v.entities then v.entities[key].revision else 0) + 1, Stored(payload), tombstone);
    && key in w.entities && w.entities[key] == e
    && (forall k :: k in v.entities ==> k in w.entities && (k != key ==> w.entities[k] == v.entities[k]))
    && (forall k :: k in w.entities ==> k == key || k in v.entities)
    && |w.log| == |v.log| + 1 && w.log[|v.log|] == ServerRow(cursor, key, e)
    && (forall i :: 0 <= i < |v.log| ==> w.log[i] == v.log[i])
  }

  /** Publishing writes the payload unless the live entity has it; publishing a tombstone, unless there is one. */
  lemma {:induction false} PublishMeans(v: Server, key: Key, payload: Json, cursor: nat)
    ensures var w := Publish(v, key, payload, cursor);
            && w.operations == v.operations
            && (if key in v.entities && !v.entities[key].tombstone
                && v.entities[key].payload == Some(payload) then w == v
                else CommittedOne(v, w, key, Some(payload), false, cursor))
    ensures var w := PublishTombstone(v, key, cursor);
            && w.operations == v.operations
            && (if key in v.entities && v.entities[key].tombstone then w == v
                else CommittedOne(v, w, key, None, true, cursor))
  {
  }

  /** A change as the operations table gives it back: its payload from a column, its timestamp in whole microseconds. */
  predicate KeptAs(c: SyncChange, kept: SyncChange) {
    && kept.operation == c.operation && kept.key == c.key && kept.base == c.base && kept.tombstone == c.tombstone
    && kept.payload == Stored(c.payload)
    && kept.timestamp <= c.timestamp < kept.timestamp + 1000 && kept.timestamp % 1000 == 0
  }

  /** The operation is remembered with its answer, as far as the columns keep it; all others are as they were. */
  ghost predicate Remembered(v: Server, w: Server, c: SyncChange, answer: Answer) {
    && c.operation in w.operations && w.operations[c.operation].1 == answer
    && KeptAs(c, w.operations[c.operation].0)
    && (forall o :: o in v.operations ==>
          o in w.operations && (o != c.operation ==> w.operations[o] == v.operations[o]))
    && (forall o :: o in w.operations ==> o == c.operation || o in v.operations)
  }

  /** What a pushed change comes to: a known operation gets its stored answer or is refused; a change off the present
      revision is rejected with the present entity; one that quota or materialisation refuses changes nothing; any other
      is committed behind what it sets off, and the answer is the entity it became. */
  lemma {:induction false} PushMeans(policy: Policy, v: Server, c: SyncChange, cursor: nat)
    ensures var r := ApplyChange(policy, v, c, cursor);
            var revision := if c.key in v.entities then v.entities[c.key].revision else 0;
            var known := c.operation in v.operations; var reactions := policy.reacts(v, c);
            && (known && v.operations[c.operation].0 == c ==> r == Ok((v, v.operations[c.operation].1)))
            && (known && v.operations[c.operation].0 != c ==> r == Err(OperationMismatch))
            && (!known && revision != c.base ==>
                  && r.Ok? && r.value.1 == Rejected(if c.key in v.entities then Some(v.entities[c.key]) else None)
                  && r.value.0.entities == v.entities && r.value.0.log == v.log
                  && Remembered(v, r.value.0, c, r.value.1))
            && (!known && revision == c.base && policy.refuses(v, c) ==> r == Err(RefusedByServer))
            && (!known && revision == c.base && !policy.refuses(v, c) ==>
                  && r.Ok?
                  && CommittedOne(ReactAll(v, reactions, c.key, cursor), r.value.0, c.key, c.payload, c.tombstone,
                                  cursor + |reactions|)
                  && r.value.1 == Accepted(r.value.0.entities[c.key]) && Remembered(v, r.value.0, c, r.value.1))
  {
    ReactionsKeepOperations(v, policy.reacts(v, c), c.key, cursor);
    hide ReactAll, Stored;
  }

  lemma {:induction false} ReactionsKeepOperations(v: Server, reactions: seq<Reaction>, key: Key, cursor: nat)
    ensures ReactAll(v, reactions, key, cursor).operations == v.operations
  {
    hide Trimmed, Plain, Stored;
    if reactions != [] {
      ReactionsKeepOperations(v, reactions[..|reactions| - 1], key, cursor);
    }
  }

  /** What a change sets off is published one after the other, each at its own cursor, except about the entity
      itself. */
  lemma {:induction false} ReactionsMean(v: Server, reactions: seq<Reaction>, key: Key, cursor: nat)
    ensures ReactAll(v, [], key, cursor) == v
    ensures reactions != [] ==>
              var n := |reactions| - 1; var before := ReactAll(v, reactions[..n], key, cursor);
              ReactAll(v, reactions, key, cursor) ==
                if reactions[n].key == key then before
                else if reactions[n].Retract? then PublishTombstone(before, reactions[n].key, cursor + n)
                else Publish(before, reactions[n].key, reactions[n].payload, cursor + n)
  {
    hide Publish, PublishTombstone, Trimmed, Plain;
  }

  /** A pull gives a stretch of the log: it starts behind the rows up to the cursor, and is a full page or reaches the
      end. */
  lemma {:induction false} PullMeans(v: Server, after: nat)
    ensures var page := Pull(v, after);
            exists k: nat ::
              && k + |page| <= |v.log| && page == v.log[k..k + |page|]
              && (forall i :: 0 <= i < k ==> v.log[i].cursor <= after) && (k < |v.log| ==> v.log[k].cursor > after)
              && |page| <= 100 && (|page| == 100 || k + |page| == |v.log|)
  {
    var k := FirstAfter(v.log, after);
    hide FirstAfter;
    assert Pull(v, after) == v.log[k..k + |Pull(v, after)|];
  }

  /** What is pushed for an outbox row: the operation with its cursor, based on the revision before, with the server
      form of a live payload; a live row whose payload is not an object cannot be pushed. */
  lemma {:induction false} ChangeMeans(cfg: Config, local: LocalChange, cursor: nat)
    ensures var r := ChangeForServer(cfg, local, cursor);
            && (r.Err? <==> !local.entity.tombstone && !local.entity.payload.Obj?)
            && (r.Ok? ==>
                  && r.value.operation == OperationId(cfg.device, cursor) && r.value.key == local.key
                  && (local.entity.revision > 0 ==> r.value.base + 1 == local.entity.revision)
                  && (local.entity.revision == 0 ==> r.value.base == 0)
                  && r.value.tombstone == local.entity.tombstone && r.value.timestamp == cfg.clock(cursor)
                  && (local.entity.tombstone ==> r.value.payload.None?)
                  && (!local.entity.tombstone ==>
                        Ok(r.value.payload) == WithSome(ToServer(cfg.ids, local.key.kind, local.key.id,
                                                                 local.entity.payload))))
  {
    hide ToServer;
  }

  function WithSome(r: Result<Json, SyncError>): Result<Option<Json>, SyncError> {
    if r.Ok? then Ok(Some(r.value)) else Err(r.error)
  }

  // ---- payloads ----

  /** The server form, field by field: a local id that is no UUID is named; a schedule's profile that is no UUID is kept
      aside and replaced by the stable id of that profile; every other field is as it was. */
  lemma {:induction false} ServerFormMeans(ids: IdScheme, kind: string, localId: string, payload: Json)
    requires payload.Obj?
    ensures var form := ToServer(ids, kind, localId, payload);
            var profile := "model_profile_id";
            var id := "_cowork_local_entity_id";
            var aside := "_cowork_local_model_profile_id";
            var replaced := kind == "schedule" && profile in payload.fields && payload.fields[profile].Str?
                            && ids.parse(payload.fields[profile].text).None?;
            && form.Ok? && form.value.Obj?
            && (ids.parse(localId).None? ==> id in form.value.fields && form.value.fields[id] == Str(localId))
            && (replaced ==>
                  && aside in form.value.fields && form.value.fields[aside] == payload.fields[profile]
                  && profile in form.value.fields
                  && form.value.fields[profile]
                     == Str(ids.show(ids.hash("provider_profile", payload.fields[profile].text))))
            && (forall name | !(name == id && ids.parse(localId).None?)
                              && !(replaced && (name == aside || name == profile)) ::
                  && (name in form.value.fields <==> name in payload.fields)
                  && (name in payload.fields ==> form.value.fields[name] == payload.fields[name]))
  {
  }

  /** The local form, field by field: both reserved keys are gone, and a schedule's kept profile is back in its
      place. */
  lemma {:induction false} LocalFormMeans(kind: string, payload: Json)
    requires payload.Obj?
    ensures var form := ToLocal(kind, payload);
            var profile := "model_profile_id";
            var id := "_cowork_local_entity_id";
            var aside := "_cowork_local_model_profile_id";
            var restored := kind == "schedule" && aside in payload.fields && payload.fields[aside].Str?;
            && form.Obj? && id !in form.fields && aside !in form.fields
            && (restored ==> profile in form.fields && form.fields[profile] == payload.fields[aside])
            && (forall name :: name != id && name != aside && !(restored && name == profile) ==>
                  && (name in form.fields <==> name in payload.fields)
                  && (name in payload.fields ==> form.fields[name] == payload.fields[name]))
  {
  }

  /** Where a value lies in a JSON document. */
  datatype Place = Member(name: string) | Item(index: nat)

  /** The value that a path of members and items leads to. */
  function ValueAt(json: Json, path: seq<Place>): Option<Json> {
    if path == [] then Some(json)
    else
      match path[0]
      case Member(name) => if json.Obj? && name in json.fields then ValueAt(json.fields[name], path[1..]) else None
      case Item(index) => if json.Arr? && index < |json.items| then ValueAt(json.items[index], path[1..]) else None
  }

  /** A payload column keeps the shape of a value, its texts and its numbers, except that a wide float is read as the
      integer that it is. */
  lemma {:induction false} ColumnMeans(json: Json, path: seq<Place>)
    ensures ValueAt(Column(json), path).Some? <==> ValueAt(json, path).Some?
    ensures ValueAt(json, path).Some? ==>
              var before, after := ValueAt(json, path).value, ValueAt(Column(json), path).value;
              match before
              case Obj(fields) => after.Obj? && after.fields.Keys == fields.Keys
              case Arr(items) => after.Arr? && |after.items| == |items|
              case WideFloat(value) => after == Other(value)
              case _ => after == before
    decreases path
  {
    if path != [] {
      match path[0]
      case Member(name) =>
        if json.Obj? && name in json.fields {
          ColumnMeans(json.fields[name], path[1..]);
        }
      case Item(index) =>
        if json.Arr? && index < |json.items| {
          ColumnMeans(json.items[index], path[1..]);
        }
    }
  }

  /** The names of secrets, in any mixture of cases. */
  predicate NamesSecret(name: string) {
    exists secret ::
      && secret in {"api_key", "access_token", "refresh_token", "password", "secret", "client_secret", "authorization"}
      && |name| == |secret|
      && forall i :: 0 <= i < |name| ==>
           name[i] == secret[i] || ('A' <= name[i] <= 'Z' && name[i] as int + 32 == secret[i] as int)
  }

  /** The path ends at a member of an object that has the name of a secret. */
  ghost predicate LeadsToSecret(json: Json, path: seq<Place>) {
    path != [] && path[|path| - 1].Member? && NamesSecret(path[|path| - 1].name) && ValueAt(json, path).Some?
  }

  /** A payload is found to contain a secret if and only if some path leads to one, however deep in objects and
      arrays. */
  lemma {:induction false} SecretIff(json: Json)
    ensures ContainsSecret(json) <==> exists path :: LeadsToSecret(json, path)
  {
    hide NamesSecret;
    if ContainsSecret(json) {
      var path := SecretPath(json);
    }
    if exists path :: LeadsToSecret(json, path) {
      var path :| LeadsToSecret(json, path);
      PathIsFound(json, path);
    }
  }

  /** Which changes pass validation: of a known entity type, with a payload exactly if it is no deletion, within the
      limits, and without a secret anywhere in the metadata of a profile, a secret or a server. */
  lemma {:induction false} ValidIff(policy: Policy, c: SyncChange)
    ensures ValidChange(policy, c) <==>
            && c.key.kind in {"project", "thread", "message", "task", "schedule", "crew", "skill", "memory",
                              "provider_profile", "secret_metadata", "mcp_metadata", "run"}
            && (c.tombstone <==> c.payload.None?) && !policy.exceeds(c)
            && !(c.key.kind in {"provider_profile", "secret_metadata", "mcp_metadata"} && c.payload.Some?
                 && exists path :: LeadsToSecret(c.payload.value, path))
  {
    if c.payload.Some? {
      SecretIff(c.payload.value);
    }
    hide ContainsSecret, LeadsToSecret;
  }

  lemma {:induction false} LowerMeans(name: string)
    ensures SecretField(Lower(name)) <==> NamesSecret(name)
  {
    var lower := Lower(name);
    assert forall i :: 0 <= i < |name| ==> lower[i] == LowerChar(name[i]);
    if SecretField(lower) {
      assert lower in {"api_key", "access_token", "refresh_token", "password", "secret", "client_secret",
                       "authorization"};
      assert |lower| == |name|;
    }
    if NamesSecret(name) {
      var secret :| secret in {"api_key", "access_token", "refresh_token", "password", "secret", "client_secret",
                               "authorization"} && |name| == |secret|
                    && forall i :: 0 <= i < |name| ==>
                         name[i] == secret[i] || ('A' <= name[i] <= 'Z' && name[i] as int + 32 == secret[i] as int);
      SecretsAreLower(secret);
      assert lower == secret;
    }
  }

  lemma {:induction false} SecretsAreLower(secret: string)
    requires secret in {"api_key", "access_token", "refresh_token", "password", "secret", "client_secret",
                        "authorization"}
    ensures forall i :: 0 <= i < |secret| ==> !('A' <= secret[i] <= 'Z')
  {
  }

  lemma {:induction false} SecretPath(json: Json) returns (path: seq<Place>)
    requires ContainsSecret(json)
    ensures LeadsToSecret(json, path)
    decreases json
  {
    hide NamesSecret, SecretField;
    match json {
      case Obj(fields) =>
        var name :| name in fields && (SecretField(Lower(name)) || ContainsSecret(fields[name]));
        if SecretField(Lower(name)) {
          LowerMeans(name);
          path := [Member(name)];
          assert path[1..] == [] && ValueAt(fields[name], []) == Some(fields[name]);
        } else {
          var rest := SecretPath(fields[name]);
          path := [Member(name)] + rest;
          assert path[1..] == rest && path[|path| - 1] == rest[|rest| - 1];
        }
      case Arr(items) =>
        var i :| 0 <= i < |items| && ContainsSecret(items[i]);
        var rest := SecretPath(items[i]);
        path := [Item(i)] + rest;
        assert path[1..] == rest && path[|path| - 1] == rest[|rest| - 1];
    }
  }

  lemma {:induction false} PathIsFound(json: Json, path: seq<Place>)
    requires LeadsToSecret(json, path)
    ensures ContainsSecret(json)
    decreases path
  {
    hide NamesSecret, SecretField;
    if |path| == 1 {
      LowerMeans(path[0].name);
    } else {
      var rest := path[1..];
      assert rest[|rest| - 1] == path[|path| - 1];
      match path[0] {
        case Member(name) => PathIsFound(json.fields[name], rest);
        case Item(index) => PathIsFound(json.items[index], rest);
      }
    }
  }
}
