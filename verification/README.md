# LocalAI-Cowork: a verified model of its synchronisation, editing, audit and streaming cores

This project models the parts of LocalAI-Cowork in which several steps, several processes or arbitrarily cut input have
to add up to one promise, and proves those promises for all inputs, all runs and all interleavings. `dafny verify
dfyconfig.toml` checks everything.

## What is modelled

**Metadata synchronisation** (`Sync*.dfy`). A device (local daemon and device agent), the control plane, and everybody
else who edits the same user's metadata form one transition system (`SyncSystem`): one transition per call or
transaction, in any interleaving, with a cycle that may abort after any call. `SyncInvariant` states what every step
keeps; the `*Steps` modules prove it step by step. On top of it:

- *Safety* (`SyncConvergence`): in every run, an entity with nothing on its way is the same on the device and on the
  server; cursors are earned and never go back; a rejected push is recorded as a conflict before it is acknowledged.
- *Liveness* (`SyncGrounding`, `SyncLiveness`, `SyncBlocking`): from a reachable state an agent that is left alone
  reaches a state with an empty backlog and everything delivered if and only if the daemon can accept every row of the
  server's log, every change that is not acknowledged passes the server's validation, and the server, going on from its
  present state, accepts, rejects or replays each change that is still to be answered rather than refusing it.
- *Laws of the daemon's tables* (`SyncStoreLaws`), *decisions about conflicts* (`SyncDecisions`), *identity*
  (`SyncPayload`, `SyncIdentity`) and *cursor order* (`SyncCursorOrder`).
- *Each transaction on its own* (`SyncTransactions`): every call of daemon, agent and server field by field and case by
  case, without naming the function that models it, and *the pages of a cycle* (`SyncCycles`).
- `SyncDaemon` holds the transactions as methods that update tables in place, proved equal to the functions used above.

**Office text replacement** (`Ooxml*.dfy`). XML events are collected into text nodes and groups; a group's joined text
is searched, and the result is distributed back over its nodes in place, under one budget for all parts of a document.
`OoxmlCoverage` says of the events themselves what is collected.

**Signed audit log** (`Audit*.dfy`). Verification of a chain of records over several files, appending with a MAC that
covers the previous MAC, and rotation by renames, where any file operation may fail, also in the middle of a line. The
set of accepted logs is described without running the verifier.

**Workspace snapshots** (`Snapshot*.dfy`). Chunking through handles with short reads, deduplicated upload into a
content-addressed store, checked materialisation under safe and different paths.

**Run relay** (`RunRelay.dfy`). The record-then-events polling of a local run, interleaved with the daemon's writes.

**Stream readers** (`Sse*.dfy`, `BoundedReaders.dfy`, `Rfb*.dfy`, `Framebuffer.dfy`). Event-stream, line and RFB parsing
from input cut at arbitrary places, and the framebuffer updates sent back. `SseLaws` and `RfbEffects` say what an event
and a client message mean, of the bytes and messages themselves.
RFB messages follow section 7.5 of RFC 6143, updates sections 7.6.1 and 7.7.1.

## Where the code does not do what one would expect

Each of these is stated as a lemma with a concrete input, next to the exact condition under which the promise holds.

1. *Relay.* The comment at agents/cowork-device-agent/src/main.rs:3225-3228 says the event query that follows a terminal
   record drains the whole log, but `runs.events` returns at most 1000 rows. A relay that returns has processed
   everything if and only if at most 1000 events were left before its last query and nothing is written afterwards
   (`CompleteIff`, `SealedCompleteIff`, `RecoveredCompleteIff`); 1001 events show the loss (`LongRunLosesEvents`). What
   was processed is always an exact prefix, in order (`ProcessedIsPrefix`).
2. *Refused pushes block everything.* The agent pushes before it pulls and gives up the cycle at an error. While the
   first page of the outbox fails validation, or its first change is refused, nothing is pushed or pulled, however long
   the agent goes on (`RefusedPushBlocksAll`). The daemon takes entities that the server refuses: a profile with a field
   named `api_key` (`SecretFieldBlocks`), or a creation that the quota or materialisation refuses
   (`RefusedCreationBlocks`). `DrainsIff` has the exact condition.
3. *Refused replays.* The operations table keeps microseconds, outbox timestamps have nanoseconds; and its payload column
   gives back a number such as 1e16 as an integer. A replay must equal what is stored. So a change that was answered is
   answered again if and only if its timestamp is a whole number of microseconds and its payload has no such number
   (`ReplayIff`); after one lost answer the agent finishes exactly then (`LostAnswerDrainsIff`) and is blocked otherwise
   (`LostAnswerBlocks`).
4. *Refused rows.* The server accepts a payload that is not an object for entity types it does not materialise, and the
   entity type `run`; the daemon of every device refuses such a log row, and the agent stops there in every later cycle
   (`DrainsIff`, `RefusedRowIsReachable`).
5. *Ids with surrounding white space.* The daemon trims the ids of remote entities but not of local ones. For every such
   id there is a run that ends with nothing on its way and different contents (`UntrimmedIdDiverges`).
6. *Payloads that name another entity.* The agent delivers an entity to the id its payload names, and the server does not
   compare the two. For every entity and every such payload, pushed by another device or edited on this one, there is a
   run that ends with nothing on its way and different contents (`MisaddressedPayloadDiverges`,
   `MisaddressedEditDiverges`). With trimmed ids, and pushed payloads that name no other entity, `Converges` holds for
   every run.
7. *Decisions.* In every run, `keep_local` fails for an open conflict if and only if the outbox already holds the revision
   after the remote one (`KeepLocalFailsIff`, `KeepLocalCanFail`). `use_remote` writes the row and leaves the outbox as it
   is. The server has the chosen entity in the end if and only if it has it at the moment of the decision and no change
   still to be answered builds on it (`UseRemoteSticksIff`), and the entity can be edited again if and only if the outbox
   does not hold the next revision (`EditAfterUseRemote`).
8. *Tombstone publication* takes its log cursor without the lock that the other writers hold. Readers miss nothing if and
   only if rows become visible in cursor order (`NoReaderMissesIffAscending`); with the lock they always do
   (`LockedLogMissesNothing`), without it a row can be lost to a reader (`OvertakenTombstoneIsMissed`).
9. *Edits that come back changed.* What is pushed, stored and mapped back is what was pushed if and only if the payload is
   steady: it has neither reserved key and no number that the payload column changes (`StoredRoundTrip`). An edit that is
   not steady, and names no other entity, comes back to the device that made it as a conflict, and only such an edit does
   (`OwnEditConflictsIff`, `HandedBackUnchanged`, `NeverDiverges`).
10. *Boundaries inside text.* A paragraph, string item or cell that starts inside an open text element does not end that
    element's group. Characters before and behind such a start can be joined if and only if a text element is open there
    whose group already has characters (`NeverJoinedIff`); two documents show it (`StartInsideTextJoins`).
11. *Torn audit lines.* A run of appends, any of which may be interrupted at any file operation, leaves a log that
    verifies if and only if none was interrupted inside its line (`RunVerifiesIff`). After such a tear every append is
    refused (`TornVerifiesIff`).

## Assumptions

- A SQLite or PostgreSQL transaction, and a daemon critical section under its mutex, is one step. An aborted call happened
  completely or not at all.
- The device has one server peer. In the transition system, server log rows become visible in cursor order; finding 8
  says when that is so.
- An entity is one key on both sides: no two local ids of one type have the same stable id, neither by a collision of the
  id hash nor as two spellings of one UUID, such as upper case or braces (`PushedEntityFindsItsRow` states what that
  gives). In the theorems about runs, keys carry no surrounding white space and pushed payloads name no other entity;
  findings 5 and 6 say what happens otherwise.
- What the server does with a change beyond its revision is a parameter (`Policy`): which changes exceed its limits,
  which ones quota or materialisation refuses in which state, and which other entities materialisation publishes. The
  theorems hold for every such policy, as long as it does not change during a run. Creation times of outbox rows are an
  arbitrary function of the row (`Config.clock`).
- Server rows are not too large for the daemon: its payload limit is the one that pushes are validated against, and
  mapping a payload to the local form does not make it longer. `SentIsParsed` says what happens to others.
- SHA-256 digests and HMACs are arbitrary functions. The snapshot theorems ask that no two different chunks among those
  that occur have the same digest; the audit theorems conclude with two clashing records where they would need it.
- UTF-8 decoding and JSON parsing are parameters. A JSON value is read back equal from text, also after it went through
  the daemon's tables, and a payload column changes nothing but the numbers of finding 3. The audit theorems ask that a
  record is written as one line and read back as itself, so that a number in its details is written again as it was.
- Reads return at least one byte before the end of a stream, and otherwise as many as they like.

## Model

| member | source | states |
|---|---|---|
| `SyncConvergence.Converges` | agents/cowork-device-agent/src/main.rs:1288-1384 | In every run of edits, decisions, foreign pushes, publications and cycles that may abort or be refused anywhere, with trimmed keys and pushed payloads that name no other entity, an entity with no unacknowledged change, no open conflict and no undelivered log row is the same on device and server, or absent on both |
| `SyncConvergence.StepKeeps` | agents/cowork-device-agent/src/main.rs:1288-1384 | Every step of daemon, agent, server or another device keeps the protocol invariant |
| `SyncConvergence.QuiescentAgrees` | agents/cowork-local-daemon/src/sync_ipc.rs:74-117 | For one entity, nothing on its way implies agreement |
| `SyncConvergence.AtMostOneOpen` | agents/cowork-local-daemon/src/sync_ipc.rs:269-306 | In every run at most one conflict is open per peer and entity |
| `SyncConvergence.CursorsAreEarned` | agents/cowork-device-agent/src/main.rs:1288-1384 | In every run, each outbox change up to the local cursor was sent and answered by the server with exactly that change stored, as far as its columns keep it, and each log row up to the remote cursor was applied, ignored as stale or recorded as a conflict |
| `SyncConvergence.CursorsNeverRewind` | agents/cowork-local-daemon/src/sync_ipc.rs:261-267 | From any state, no sequence of steps lowers either cursor |
| `SyncConvergence.HandOverOpens` | agents/cowork-device-agent/src/main.rs:1320-1346 | Handing over a rejected push leaves an open conflict with exactly the server's entity, and all rows and the outbox as they were |
| `SyncConvergence.RejectionIsRecordedFirst` | agents/cowork-device-agent/src/main.rs:1320-1346 | In every run, when a rejected change is about to be acknowledged its conflict is open, or the user has decided it and the row is the server's or a later change is pending |
| `SyncGrounding.StepLives` | agents/cowork-local-daemon/src/main.rs:3500-3521 | Every step keeps that a change builds on an entity the server has or on an earlier change, that every stored rejection carries the server's entity, that every delivered row was acceptable, that open conflicts have a local side, and that a page under way was validated |
| `SyncGrounding.RejectionHasEntity` | server/cowork-server/src/sync.rs:449-596 | In every reachable state, the server can reject the next change only with an entity to hand back |
| `SyncLiveness.NextComesCloser` | agents/cowork-device-agent/src/main.rs:1288-1384 | If log and pending changes are acceptable to the other side and something is left, the agent's next step succeeds, lowers a lexicographic measure, leaves them acceptable and does not change what the server will have in the end |
| `SyncLiveness.EventuallyAgrees` | agents/cowork-device-agent/src/main.rs:1288-1384 | From every reachable state of that kind, an undisturbed agent reaches a state in which every change is acknowledged, every row is delivered, the server has handled the pending changes in order, and every entity without an open conflict agrees |
| `SyncLiveness.DrainsIff` | agents/cowork-device-agent/src/main.rs:1288-1384 | The undisturbed agent finishes if and only if the daemon accepts every row of the log, every unacknowledged change passes the server's validation, and the server refuses none of the changes still to be answered when they are sent in order from its present state |
| `SyncLiveness.BlockedForever` | agents/cowork-device-agent/src/main.rs:1288-1384 | From any other state it does not finish in any number of steps, aborted cycles included |
| `SyncLiveness.PushableBehindReplays` | server/cowork-server/src/sync.rs:449-470 | What the server would handle from the start of an aborted batch it handles from where the batch stood, since replays leave it as it is |
| `SyncBlocking.RefusedPushBlocksAll` | agents/cowork-device-agent/src/main.rs:1288-1384 | While the first page fails validation or its first change is refused, any number of agent steps leaves all tables of the device and of the server as they are |
| `SyncBlocking.SecretFieldBlocks` | server/cowork-server/src/sync.rs:400-411 | A profile with a field named like a secret, created on the device, is such a page under every policy |
| `SyncBlocking.RefusedCreationBlocks` | server/cowork-server/src/sync.rs:449-596 | So is a creation that quota or materialisation refuses |
| `SyncBlocking.ReplayIff` | server/cowork-server/src/sync.rs:3289-3310 | In every state the invariant allows, an answered change is answered again if and only if its timestamp is a whole number of microseconds and its payload has no number that a column changes |
| `SyncBlocking.LostAnswerBlocks` | server/cowork-server/src/sync.rs:3289-3310 | After one lost answer, any other change blocks everything |
| `SyncBlocking.LostAnswerDrainsIff` | server/cowork-server/src/sync.rs:3289-3310 | After one lost answer, the undisturbed agent finishes if and only if the change is of that kind |
| `SyncBlocking.RefusedRowIsReachable` | server/cowork-server/src/sync.rs:366-411 | A foreign push of a non-object payload, or of the entity type `run`, passes the server's validation and makes a log row that the daemon refuses |
| `SyncStoreLaws.OpenConflictFreezesRow` | agents/cowork-local-daemon/src/sync_ipc.rs:61-95 | While a conflict is open, no sequence of acknowledgements and remote changes from the peer changes the entity's row or closes the conflict |
| `SyncStoreLaws.PendingFreezesRow` | agents/cowork-local-daemon/src/sync_ipc.rs:61-95 | Until a change is acknowledged, no sequence of calls from the peer changes its entity's row |
| `SyncStoreLaws.KeepLocalRebases` | agents/cowork-local-daemon/src/sync_ipc.rs:395-448 | `keep_local` succeeds if and only if the outbox lacks the revision after the remote one; it then appends the recorded local content, and its server form has the remote revision as base |
| `SyncStoreLaws.KeepLocalCanFail` | agents/cowork-local-daemon/src/main.rs:626-635 | Two local edits and one remote creation lead to a conflict that `keep_local` cannot resolve |
| `SyncStoreLaws.KeptRowStays` | agents/cowork-local-daemon/src/sync_ipc.rs:191-202 | Until the change of a `keep_local` is acknowledged, no call from the peer overwrites the kept row |
| `SyncDecisions.KeepLocalFailsIff` | agents/cowork-local-daemon/src/sync_ipc.rs:395-448 | In every run, an open conflict has a local side, and `keep_local` fails for it if and only if the outbox holds the revision after the remote one |
| `SyncDecisions.UseRemoteSticksIff` | agents/cowork-local-daemon/src/sync_ipc.rs:168-210 | In every run from which the agent can finish, `use_remote` writes the chosen entity, and the server has it in the end if and only if it has it at the decision and no change still to be answered builds on it; then device and server agree unless a conflict is open |
| `SyncDecisions.EntityStaysIff` | server/cowork-server/src/sync.rs:449-596 | Once the pending changes are handled in order, the server has the entity it had if and only if no change of it still to be answered builds on that revision |
| `SyncDecisions.EditAfterUseRemote` | agents/cowork-local-daemon/src/sync_ipc.rs:349-393 | After `use_remote` the row is the remote one, and a write or deletion succeeds if and only if the outbox does not hold the next revision |
| `SyncStoreLaws.DeliveryOrderIsIrrelevant` | agents/cowork-local-daemon/src/sync_ipc.rs:74-117 | Without a pending change or open conflict, any revisions of one history in any order and with any repetition open no conflict and leave the highest |
| `SyncStoreLaws.NewestIsMaximum` | agents/cowork-local-daemon/src/sync_ipc.rs:74-117 | The revision left is the maximum of the start and all delivered ones |
| `SyncStoreLaws.HandedBackUnchanged` | agents/cowork-local-daemon/src/sync_ipc.rs:74-117 | A row handed back at its own revision reaches its own key if and only if its server form names no other id; then all rows stay, and it is applied exactly if it is a tombstone or its payload is steady, and a conflict otherwise |
| `SyncSettleSteps.RecordKeepsOneOpen` | agents/cowork-local-daemon/src/sync_ipc.rs:269-306 | Recording a conflict keeps at most one open conflict per peer and entity |
| `SyncSettleSteps.RejectedIsRecorded` | agents/cowork-local-daemon/src/sync_ipc.rs:61-95 | A rejected push handed to the daemon takes the conflict branch and leaves its row |
| `SyncPullSteps.NeverDiverges` | agents/cowork-local-daemon/src/sync_ipc.rs:74-117 | Without a pending change or open conflict, a pulled row differs from the local row of its revision only if it is that row itself, coming back with a payload that is not steady |
| `SyncPayload.PayloadRoundTrip` | agents/cowork-device-agent/src/main.rs:1423-1460 | Mapping an object to the server form and back is the identity if and only if it has neither reserved key |
| `SyncPayload.StoredRoundTrip` | agents/cowork-device-agent/src/main.rs:1423-1460 | A payload that is mapped, stored in a column and mapped back is the same if and only if it has neither reserved key and no number that the column changes |
| `SyncPayload.ServerFormIsAddressed` | agents/cowork-device-agent/src/main.rs:1423-1460 | What the agent makes of a payload without reserved keys names its own entity or none |
| `SyncPayload.PushedEntityFindsItsRow` | agents/cowork-device-agent/src/main.rs:1530-1561 | A pushed entity, live or deleted, that comes back is addressed to the row it came from, when no other row has its stable id |
| `SyncPayload.FindLocalUnique` | agents/cowork-device-agent/src/main.rs:1544-1560 | The search over listed rows finds the only one with a given stable id |
| `SyncPayload.SpacesAre` | agents/cowork-local-daemon/src/sync_ipc.rs:516-523 | The characters that are trimmed, by their code points |
| `SyncIdentity.TrimmedIdIsReported` | agents/cowork-local-daemon/src/sync_ipc.rs:514-523 | When two devices create an entity with a trimmed id, the loser has an open conflict |
| `SyncIdentity.UntrimmedIdDiverges` | agents/cowork-local-daemon/src/sync_ipc.rs:516-523 | For every id with surrounding white space the same run ends with nothing on its way and different contents |
| `SyncIdentity.MisaddressedPayloadDiverges` | agents/cowork-device-agent/src/main.rs:1530-1543 | For every entity and every payload that names another one, a foreign push and one cycle end with nothing on its way, the entity missing on the device and its content under the other id |
| `SyncIdentity.MisaddressedEditDiverges` | agents/cowork-device-agent/src/main.rs:1423-1437 | For every entity and every edit whose server form names another one, one cycle ends with nothing on its way, different contents on device and server, and the content under the other id |
| `SyncIdentity.OwnEditConflictsIff` | agents/cowork-local-daemon/src/sync_ipc.rs:74-95 | When an edit comes back to the device that made it, a conflict is opened if and only if its payload is not steady |
| `SyncCursorOrder.NoReaderMissesIffAscending` | server/cowork-server/src/sync.rs:125-189 | A reader by `cursor > after` can never miss a row if and only if rows become visible in ascending cursor order |
| `SyncCursorOrder.LockedLogMissesNothing` | server/cowork-server/src/governance.rs:303-348 | When every writer holds the user's lock from taking its cursor to its commit, no reader misses a row |
| `SyncCursorOrder.OvertakenTombstoneIsMissed` | server/cowork-server/src/sync.rs:3203-3266 | A tombstone that takes its cursor without the lock and commits late is missed by some reader |
| `SyncDaemon.ParseRemote` | agents/cowork-local-daemon/src/sync_ipc.rs:514-563 | Exactly which remote entities are refused, size limits included, and what the accepted ones become |
| `SyncDaemon.SentIsParsed` | agents/cowork-device-agent/src/main.rs:1471-1507 | The daemon parses what the agent sends into the remote entity of the transition system, unless it is invalid or too large |
| `SyncDaemon.Daemon.AcknowledgeLocal` | agents/cowork-local-daemon/src/sync_ipc.rs:35-46 | The new tables: the local cursor is the larger one |
| `SyncDaemon.Daemon.ApplyRemoteEntity` | agents/cowork-local-daemon/src/sync_ipc.rs:48-118 | Fails exactly on an invalid entity, changing nothing; otherwise tables and status are those of the specification used in all sync theorems |
| `SyncDaemon.Daemon.Record` | agents/cowork-local-daemon/src/sync_ipc.rs:269-306 | Refreshes the open conflict or inserts one |
| `SyncDaemon.Daemon.WriteRemoteEntity` | agents/cowork-local-daemon/src/sync_ipc.rs:349-393 | The row becomes the remote one; a tombstone keeps the payload that was there |
| `SyncDaemon.Daemon.ResolveConflict` | agents/cowork-local-daemon/src/sync_ipc.rs:168-210 | Both decisions and their errors, with all tables |
| `SyncDaemon.Daemon.PutEntity` | agents/cowork-local-daemon/src/main.rs:3523-3617 | Refuses an invalid identity; otherwise, field by field: a write fails exactly on a payload that is no object, on an expected revision other than the present one, or on a revision already in the outbox; a row with that payload stays; else the row has exactly the payload one revision up, it is the last outbox change, and nothing else changes |
| `SyncDaemon.Daemon.DeleteEntity` | agents/cowork-local-daemon/src/main.rs:3619-3663 | Refuses an invalid identity; otherwise, field by field: exactly when a deletion fails; else a tombstone one revision up that keeps the payload, its outbox change, and nothing else |
| `SyncDaemon.ControlPlane.Push` | server/cowork-server/src/sync.rs:449-596 | A repeated operation replays its stored answer or is refused; a new one is rejected off its base revision, refused by quota or materialisation without any change, or accepted and logged after what it sets off |
| `SyncDaemon.ControlPlane.PushChanges` | server/cowork-server/src/sync.rs:78-100 | The whole batch is validated first; then changes are applied in order, and a refusal keeps those before it |
| `SyncDaemon.ControlPlane.PublishReactions` | server/cowork-server/src/sync.rs:3203-3266 | What materialisation publishes about other entities, each with its no-op case |
| `SyncTransactions.PutMeans` | agents/cowork-local-daemon/src/main.rs:3523-3617 | What a write does to the tables, in every case, in terms of rows, outbox, peers and conflicts |
| `SyncTransactions.DeleteMeans` | agents/cowork-local-daemon/src/main.rs:3619-3663 | What a deletion does to the tables, in every case |
| `SyncTransactions.AcknowledgeMeans` | agents/cowork-local-daemon/src/sync_ipc.rs:35-46 | The peer's local cursor becomes the larger one; no other cursor, row, change or conflict changes |
| `SyncTransactions.ApplyMeans` | agents/cowork-local-daemon/src/sync_ipc.rs:48-118 | Exactly when a remote entity is applied, ignored as stale or recorded as a conflict, and what each does to row, conflicts and cursor; everything else stays |
| `SyncTransactions.ResolveMeans` | agents/cowork-local-daemon/src/sync_ipc.rs:168-210 | Both decisions: exactly when they fail and with what, the row, the outbox change and the closed conflict they leave, and that nothing else changes |
| `SyncTransactions.PublishMeans` | server/cowork-server/src/sync.rs:3115-3266 | A publication or tombstone that changes nothing adds nothing; any other is one revision up and one row of the log at the given cursor |
| `SyncTransactions.PushMeans` | server/cowork-server/src/sync.rs:449-596 | Exactly when a change is replayed, refused, rejected or accepted, and what an accepted one leaves in entities, log and operations |
| `SyncTransactions.ReactionsMean` | server/cowork-server/src/sync.rs:449-596 | What a change sets off is published one after the other, except about the entity itself |
| `SyncTransactions.PullMeans` | server/cowork-server/src/sync.rs:125-189 | The rows behind the cursor in ascending order, all of them or the first hundred |
| `SyncTransactions.ChangeMeans` | agents/cowork-device-agent/src/main.rs:1386-1421 | What is sent for an outbox row, and exactly when it cannot be sent |
| `SyncTransactions.ServerFormMeans` | agents/cowork-device-agent/src/main.rs:1423-1460 | Which fields the server form adds, replaces and keeps, a schedule's profile reference included |
| `SyncTransactions.LocalFormMeans` | agents/cowork-device-agent/src/main.rs:1509-1528 | Which fields the local form drops, restores and keeps |
| `SyncTransactions.ColumnMeans` | server/cowork-server/src/sync.rs:449-596 | Place by place, what a payload column gives back: everything but wide floating-point numbers |
| `SyncTransactions.SecretIff` | server/cowork-server/src/sync.rs:430-447 | A payload is found to contain a secret if and only if some path through objects and arrays leads to a field with one of the seven names, in any case |
| `SyncTransactions.ValidIff` | server/cowork-server/src/sync.rs:366-420 | Exactly which changes pass validation |
| `SyncCycles.AtMostFivePages` | agents/cowork-device-agent/src/main.rs:1294-1384 | In every run a cycle fetches at most five pages of the outbox and five of the log, and the agent's rounds count them |
| `SyncCycles.PushesIff` | agents/cowork-device-agent/src/main.rs:1294-1306 | A page of the outbox is fetched exactly while fewer than five were and something is not acknowledged |
| `SyncCycles.PullsIff` | agents/cowork-device-agent/src/main.rs:1352-1384 | A page of the log is fetched exactly while fewer than five were and the server has a newer row |
| `SyncCycles.FullPageGoesOn` | agents/cowork-device-agent/src/main.rs:1294-1384 | A page that is done is followed by another one exactly if it had a hundred entries |
| `OoxmlText.SpanIsReplaced` | agents/cowork-local-daemon/src/office.rs:343-381 | Emitting characters outside matches and the new text at each match start is replacing the first leftmost non-overlapping occurrences |
| `OoxmlText.OutputsAreReplaced` | agents/cowork-local-daemon/src/office.rs:343-381 | The joined outputs of a group's nodes are the joined text with its first occurrences replaced, however the text is split into nodes |
| `OoxmlText.ReplacedMeans` | agents/cowork-local-daemon/src/office.rs:343-381 | Replacing on the text itself: what is in front of the leftmost occurrence, the new text, and the rest with one replacement fewer |
| `OoxmlText.NothingReplaced` | agents/cowork-local-daemon/src/office.rs:343-381 | A text that does not contain the sought one stays as it is |
| `OoxmlText.UntouchedNodeKeepsText` | agents/cowork-local-daemon/src/office.rs:383-400 | A node that no match overlaps keeps its text |
| `OoxmlText.StartsBounded` | agents/cowork-local-daemon/src/office.rs:355-366 | The number of replacements under a maximum is the smaller of the maximum and the number of occurrences |
| `OoxmlGroup.DistributeText` | agents/cowork-local-daemon/src/office.rs:383-400 | Every node's output grows by exactly its part of the given stretch |
| `OoxmlGroup.ReplaceGroup` | agents/cowork-local-daemon/src/office.rs:343-381 | Each node's output and the count, as functions of the joined text alone |
| `OoxmlRuns.CollectIsCollected` | agents/cowork-local-daemon/src/office.rs:253-308 | Collected nodes are disjoint, in document order, non-empty runs of character events, with the text found there; `AllTextIsCollected` says that none is missing |
| `OoxmlRuns.CollectIsGrouped` | agents/cowork-local-daemon/src/office.rs:253-308 | A node's group is the number of paragraph, string-item or cell starts before it opens |
| `OoxmlCoverage.AllTextIsCollected` | agents/cowork-local-daemon/src/office.rs:253-308 | Exactly the character events whose last text tag is a start and whose next one is an end are collected, each once; two of them are in one node if and only if no text tag is between them |
| `OoxmlCoverage.CollectFailsIff` | agents/cowork-local-daemon/src/office.rs:253-308 | Collecting fails exactly when a character event inside an open text element cannot be decoded |
| `OoxmlCoverage.GroupIsNumberOfStarts` | agents/cowork-local-daemon/src/office.rs:261-274 | A collected event is in the group numbered by how many paragraphs, string items and cells start before its text element |
| `OoxmlBoundaries.BoundarySeparatesGroups` | agents/cowork-local-daemon/src/office.rs:261-274 | Characters with a paragraph, string-item or cell start between them are in different groups, so no match crosses it, unless a text element is open there whose group already has characters |
| `OoxmlBoundaries.NeverJoinedIff` | agents/cowork-local-daemon/src/office.rs:261-300 | Whatever follows, such a start joins no characters, neither of two nodes of one group nor of one node, if and only if no text element is open there whose group already has characters |
| `OoxmlBoundaries.StartInsideTextJoins` | agents/cowork-local-daemon/src/office.rs:261-300 | Two event lists in which a paragraph start inside a text element joins what is before and behind it |
| `OoxmlBoundaries.GroupsAscend` | agents/cowork-local-daemon/src/office.rs:253-308 | Groups never go back in document order, so equal groups are adjacent |
| `OoxmlRewrite.RewriteNode` | agents/cowork-local-daemon/src/office.rs:323-330 | The node's events carry the new text and no other event changes |
| `OoxmlRewrite.ReplaceTextRuns` | agents/cowork-local-daemon/src/office.rs:247-341 | Fails exactly when the events are malformed; otherwise the events differ only at nodes, the nodes carry exactly the new texts, and the count is right |
| `OoxmlRewrite.RecollectsNewTexts` | agents/cowork-local-daemon/src/office.rs:247-341 | Collecting again from the rewritten events gives the same nodes and groups with exactly the new texts |
| `OoxmlRewrite.CountIsBudgetOrAll` | agents/cowork-local-daemon/src/office.rs:310-334 | The replacements of a part are the smaller of the budget and all occurrences in its groups |
| `OoxmlRewrite.FirstGroupIsReplaced` | agents/cowork-local-daemon/src/office.rs:310-334 | Group by group in document order, each joined text is replaced with what is left of the budget |
| `OoxmlParts.ReplaceInParts` | agents/cowork-local-daemon/src/office.rs:166-209 | Which entry makes the whole fail, as too large or as malformed, and when nothing is found; otherwise each part is copied or rewritten with what the parts before it left of the budget |
| `OoxmlParts.MadeIsMaximumOrAll` | agents/cowork-local-daemon/src/office.rs:186-202 | Over all parts in order, the replacements are the smaller of the maximum and all occurrences |
| `OoxmlParts.OneOrAll` | agents/cowork-local-daemon/src/office.rs:186-202 | Without the option to replace all, one occurrence in the whole document is replaced if there is any; with it, all are |
| `AuditChain.AcceptsExactlyGoodLogs` | app/src-tauri/src/audit_service.rs:424-551 | Verification accepts exactly legacy lines followed by genuine records that are each linked to the one before, and its report then counts them: last - first + 1 is the number of signed records |
| `AuditChain.GenuineIff` | app/src-tauri/src/audit_service.rs:477-535 | What makes a line genuine, without the verifier: the canonical text of a signed record of version one, numbered from one, with a previous MAC exactly if it is not the first, MACs of 64 lower-case hexadecimal digits, and the MAC of its body |
| `AuditChain.StretchIsGood` | app/src-tauri/src/audit_service.rs:424-551 | Every stretch of an accepted log is an accepted log |
| `AuditChain.LastMacPinsLog` | app/src-tauri/src/audit_service.rs:349-370 | Of two accepted fully signed logs with the same last MAC one is a suffix of the other, and they are equal if both start at sequence one, unless two of their genuine records with different bodies have the same MAC |
| `AuditChain.SameEndIsSuffix` | app/src-tauri/src/audit_service.rs:486-535 | Such logs agree backwards as far as the shorter one reaches, or two of their records clash |
| `AuditChain.DecodesEncoded` | app/src-tauri/src/audit_service.rs:241-258 | A digest survives hexadecimal |
| `AuditChain.EncodesDecoded` | app/src-tauri/src/audit_service.rs:245-258 | Only one text decodes to a digest, so comparing bytes is comparing the recorded MACs |
| `AuditFiles.FilesAreLines` | app/src-tauri/src/audit_service.rs:431-450 | File boundaries do not matter to verification; a file that cannot be read, is not text or is truncated is refused |
| `AuditFiles.PermitsExactlyGoodLogs` | app/src-tauri/src/audit_service.rs:424-551 | Retained files are accepted exactly when all are whole and together hold a good log |
| `AuditFiles.LinesOfAppended` | app/src-tauri/src/audit_service.rs:606-612 | A line written after whole lines is read back after them |
| `AuditFiles.TargetIsFree` | app/src-tauri/src/audit_service.rs:58-70 | Before each move of a rotation its target slot is free, whatever slots were empty |
| `AuditFiles.RotationRetains` | app/src-tauri/src/audit_service.rs:40-71 | After every move the retained files are those before it without the oldest archive, in the same order |
| `AuditFiles.ShiftMeans` | app/src-tauri/src/audit_service.rs:40-71 | After each move of a rotation, which file is in which slot |
| `AuditFiles.StoppedRotationVerifies` | app/src-tauri/src/audit_service.rs:40-71 | A rotation that stops after any move leaves a log that verifies and has lost at most the lines of the oldest archive |
| `AuditFiles.LeftBehindVerifies` | app/src-tauri/src/audit_service.rs:561-606 | Whatever an append leaves behind when a file operation before its line fails verifies |
| `AuditFiles.AppendVerifies` | app/src-tauri/src/audit_service.rs:561-615 | A successful append, with or without rotation, leaves a log that verifies, whose last sequence is one higher and whose last MAC is the new record's |
| `AuditFiles.AppendRecords` | app/src-tauri/src/audit_service.rs:561-615 | A successful append adds one line behind the lines that are kept, in the active file or a new one exactly if it would grow too long; the line reads back as a record of the payload, with the next number, the MAC of the last record and its own |
| `AuditFiles.TornVerifiesIff` | app/src-tauri/src/audit_service.rs:606-615 | An append interrupted while it writes its line leaves a log that verifies if and only if none or all of the line was written; otherwise every later append is refused |
| `AuditRuns.RunVerifiesIff` | app/src-tauri/src/audit_service.rs:561-615 | A run of appends, any of which may stop at any file operation, leaves a log that verifies if and only if none stopped inside its line |
| `AuditRuns.RunCounts` | app/src-tauri/src/audit_service.rs:561-615 | `n` successful appends raise the last sequence by exactly `n`, and the retained signed records are numbered without a gap |
| `AuditLog.IntactMeans` | app/src-tauri/src/audit_service.rs:538-545 | A log is reported ok and complete exactly when it is all genuine records numbered from one |
| `AuditLog.StatusMeans` | app/src-tauri/src/audit_service.rs:424-551 | The status in every case: unavailable, tampered, empty, legacy or intact, and when the chain is complete, said of files and lines |
| `AuditLog.Log.RetainedPaths` | app/src-tauri/src/audit_service.rs:219-229 | The existing slots, oldest first |
| `AuditLog.Log.VerifyChain` | app/src-tauri/src/audit_service.rs:424-551 | The verdict over all retained files, with a file that cannot be read reported as unavailable; how many files were opened before a refusal; and the active lines |
| `AuditLog.Log.RotateIfNeeded` | app/src-tauri/src/audit_service.rs:40-71 | The slots afterwards, or where a failing operation left them, and that every state on the way retains the files without the oldest archive; each rename requires its target to be absent |
| `AuditLog.Log.Append` | app/src-tauri/src/audit_service.rs:561-615 | The slots after success, no change after a refusal, and which states a failing file operation can leave: a rotation under way, or the line written in part, or completely when only the flush fails |
| `Machine.FileHandle.ReadChunk` | agents/cowork-device-agent/src/main.rs:3960-3970 | The buffer is filled with the next bytes up to its size or the end of the file, whatever short reads occur |
| `SnapshotChunks.HashFile` | agents/cowork-device-agent/src/main.rs:3936-3958 | The chunks, the digest and the size of the file, whatever short reads occur |
| `SnapshotChunks.ChunksPinFile` | agents/cowork-device-agent/src/main.rs:3936-3958 | Files with equal chunks are equal, if no two of their chunks clash |
| `SnapshotTransfer.MatchesMeansUnchanged` | agents/cowork-device-agent/src/main.rs:4054-4073 | The re-read passes if and only if the file still has the bytes that were hashed, if no two of their chunks clash |
| `SnapshotTransfer.PublishFile` | agents/cowork-device-agent/src/main.rs:4054-4073 | Success only on a matching file, and failure only on a changed one or a failing upload; uploads are missing digests not uploaded before, each with bytes of that digest |
| `SnapshotTransfer.Publish` | agents/cowork-device-agent/src/main.rs:4020-4080 | Unless an upload fails, success exactly when the chunk limit holds, every file is found inside the workspace with the hashed chunks, and the manifest is committed; then each missing digest of the inventory was uploaded exactly once and nothing else changed in the store |
| `SnapshotTransfer.Materialise` | agents/cowork-device-agent/src/main.rs:4117-4163 | Success exactly when paths are safe and different, every file can be rebuilt at its recorded size and the sizes add up; then the directory holds exactly those files |
| `SnapshotTransfer.RebuiltIsOriginal` | agents/cowork-device-agent/src/main.rs:4133-4148 | Whatever the source answers, a file that passes all checks has the bytes that were hashed, unless an answer clashes with a chunk |
| `SnapshotTransfer.PublishedIsMaterialised` | agents/cowork-device-agent/src/main.rs:4020-4164 | From the store a publish leaves, every file is rebuilt byte for byte with its recorded size |
| `SnapshotTransfer.RoundTrip` | agents/cowork-device-agent/src/main.rs:3936-4164 | Hash, publish from files that may have changed, materialise: with full-size chunks and no failing upload publishing succeeds exactly if nothing changed and the manifest is committed; then materialising fails only for paths, and gives the workspace byte for byte |
| `RunRelay.ProcessedIsPrefix` | agents/cowork-device-agent/src/main.rs:3215-3292 | In every interleaving the relay has processed exactly the first events up to its cursor, each once and in order |
| `RunRelay.CompleteIff` | agents/cowork-device-agent/src/main.rs:3215-3292 | A relay that returned has processed every event if and only if its last query could return all that was left and nothing was written since |
| `RunRelay.SealedCompleteIff` | agents/cowork-local-daemon/src/main.rs:5239-5252 | When every event is written before the terminal record, completeness is exactly that at most 1000 events were left |
| `RunRelay.RecoveredCompleteIff` | agents/cowork-local-daemon/src/main.rs:5239-5252 | In every interleaving, a sealed run that ended before the relay first read its record is relayed completely if and only if it has at most 1000 events |
| `RunRelay.LongRunLosesEvents` | agents/cowork-local-daemon/src/main.rs:5239-5252 | With 1001 events the relay returns without the last one |
| `RunRelay.QueryIsStretch` | agents/cowork-local-daemon/src/main.rs:5239-5252 | The query returns the events that follow the cursor, up to the limit |
| `RunRelay.NextOfNumbered` | agents/cowork-local-daemon/src/main.rs:5266-5290 | Appended events are numbered without a gap |
| `RunRelay.Relay.Process` | agents/cowork-device-agent/src/main.rs:3236-3274 | Every event of an answer is dispatched once, in order, and the cursor follows; the first event that does not stay local and whose call fails ends the relay behind the events before it |
| `RunRelay.DispatchAllMeans` | agents/cowork-device-agent/src/main.rs:3236-3274 | Which kinds of events stay local and how each other one is relayed, recovered interventions included: one action per event, in order |
| `SseStream.BoundaryIsStable` | agents/cowork-device-agent/src/main.rs:2848-2859 | A boundary found in a prefix stays where it is whatever arrives later, also for cuts inside a separator |
| `SseStream.ParseStream` | agents/cowork-device-agent/src/main.rs:2819-2846 | Within the size limit, message, last event id and retry value, or the error, are those of the uncut stream; beyond it they are those or the size error |
| `SseStream.ParseEvent` | agents/cowork-device-agent/src/main.rs:2861-2910 | One event's outcome, whose meaning is `SseLaws.OutcomeMeans` |
| `SseLaws.OutcomeMeans` | agents/cowork-device-agent/src/main.rs:2861-2910 | What an event means, of its lines: it fails exactly on bytes that are no text, an identifier that is too long or not printable, bad JSON or a request of the server; the last identifier and the last decimal retry value, five seconds at most, are remembered; only a response with the request's id is received, and it is the JSON of all data values in order with a newline between each two |
| `SseLaws.FieldsMean` | agents/cowork-device-agent/src/main.rs:2868-2895 | The data values, last identifier and retry value that the lines of an event leave behind |
| `SseLaws.ParseMeans` | agents/cowork-device-agent/src/main.rs:2888-2892 | A retry value counts if and only if it is decimal digits, with or without a plus sign, for a number that fits 64 bits |
| `TextLines.LinesMean` | agents/cowork-device-agent/src/main.rs:2869-2869 | A newline, with or without a carriage return, ends a line, and what follows the last newline is a line if there is anything |
| `SseLaws.BoundaryMeans` | agents/cowork-device-agent/src/main.rs:2849-2859 | The first event ends at the first empty line of either kind |
| `SseLaws.StreamMeans` | agents/cowork-device-agent/src/main.rs:2819-2846 | A stream is read event by event, each with what the ones before it left behind; the first event that is not passed over decides, or else the rest does |
| `BoundedReaders.ReadRaw` | agents/cowork-device-agent/src/crew.rs:576-607 | The bytes up to and with the next newline, refused exactly when they exceed the limit, whatever slices the buffer hands out |
| `BoundedReaders.ReadBoundedLine` | agents/cowork-device-agent/src/crew.rs:576-607 | The crew reader's line, end of stream or failure, as the remaining stream alone determines it |
| `BoundedReaders.ReadMcpLine` | agents/cowork-device-agent/src/main.rs:2984-3008 | The same for the MCP reader, which cuts off one line end only |
| `BoundedReaders.ReadAllLines` | agents/cowork-device-agent/src/crew.rs:576-607 | Reading to the end is splitting the whole stream at newlines, and fails exactly when some line is too long |
| `BoundedReaders.ReadBoundedBytes` | agents/cowork-device-agent/src/crew.rs:618-635 | The first `limit` bytes, and whether the stream is longer |
| `RfbMessages.DecodesEncodedAll` | agents/cowork-device-agent/src/windows_desktop.rs:188-275 | Decoding undoes encoding for every list of valid client messages |
| `RfbMessages.DecodesEncoded` | agents/cowork-device-agent/src/windows_desktop.rs:188-275 | A stream that starts with an encoded message starts with that message, and its length is known |
| `RfbMessages.EncodesDecoded` | agents/cowork-device-agent/src/windows_desktop.rs:188-275 | Whatever is decoded is a valid message, and encoding it gives the bytes that were read |
| `RfbServe.WsBytes.ReadExact` | agents/cowork-device-agent/src/windows_desktop.rs:302-321 | Exactly the next bytes of the stream, or the reason why they do not come, whatever frames carry them |
| `RfbServe.WsBytes.ReadMessage` | agents/cowork-device-agent/src/windows_desktop.rs:188-275 | The reference decoder's answer on the remaining bytes, or the buffer limit |
| `RfbServe.Serve` | agents/cowork-device-agent/src/windows_desktop.rs:188-275 | The decoded messages are those of the byte stream, as far as an effect does not fail; an encoded list whose frames stay within the buffer limit is decoded exactly, and the loop ends at a message boundary; the effects are those that `RfbEffects.EffectsMean` describes |
| `RfbServe.SmallFramesStayWithin` | agents/cowork-device-agent/src/windows_desktop.rs:302-321 | Frames that leave room for the longest read never exceed the buffer limit |
| `RfbServe.ViewOnlyInjectsNothing` | agents/cowork-device-agent/src/windows_desktop.rs:207-262 | Without control only updates are sent; they are those of a session with control for as long as that one lasts |
| `RfbServe.ClipboardIsNotRepeated` | agents/cowork-device-agent/src/windows_desktop.rs:222-229 | No clipboard text is sent to the client twice in a row |
| `RfbEffects.EffectsMean` | agents/cowork-device-agent/src/windows_desktop.rs:207-262 | Message by message, for every list: a key has its keysym and is a press exactly if its byte is not zero; a pointer has its position, its buttons and the low three bits of the last pointer message; a cut text is set as it is; an update has its size and is Tight exactly if the last encodings list 7, and a clipboard text that was not the last one sent follows it; without control nothing but updates; a failing effect ends the session |
| `RfbEffects.EveryMessageIsAnswered` | agents/cowork-device-agent/src/windows_desktop.rs:207-262 | With control and no failing effect, the effects other than texts sent back are one per update, key, pointer and cut-text message, in order |
| `RfbEffects.FailedStays` | agents/cowork-device-agent/src/windows_desktop.rs:188-275 | After a failing effect nothing is done |
| `Framebuffer.Clamp` | agents/cowork-device-agent/src/windows_desktop.rs:213-214 | The served size is the smallest of screen, frame and request, a request of zero counting as one |
| `Framebuffer.CroppedBgra` | agents/cowork-device-agent/src/windows_desktop.rs:406-418 | Succeeds exactly within the frame; length and every pixel of the crop |
| `Framebuffer.RowInside` | agents/cowork-device-agent/src/windows_desktop.rs:413-416 | No row slice reads out of range |
| `Framebuffer.HeaderReadsBack` | agents/cowork-device-agent/src/windows_desktop.rs:420-430 | A client reads from the header one rectangle at the origin with its size and encoding |
| `Framebuffer.AnswerRequest` | agents/cowork-device-agent/src/windows_desktop.rs:209-221 | For every frame and request the clamped update succeeds: a 16-byte header and 4 bytes per pixel, each equal to the frame's |
| `Framebuffer.EncodeCompactLength` | agents/cowork-device-agent/src/windows_desktop.rs:458-481 | Fails exactly above the limit; the bytes decode to the length and are as few as it needs |
| `Framebuffer.CompactLengthIsSelfDelimiting` | agents/cowork-device-agent/src/windows_desktop.rs:458-481 | What follows a compact length does not change how it is read |

## Left out

- Etags, UUID generation, keyring access, the audit history marker and the redaction of audit details.
- 64-bit overflow of revisions and cursors, and rate limits.
- What quota and materialisation decide in the server's own tables: a parameter of the theorems.
- Team-wide publication: the server publishes to one user's log here.
- SyncLiveness.DrainsIff: the server's policy does not change while the agent goes on, so a timestamp that is too far ahead stays so.
- SyncDecisions.UseRemoteSticksIff: entities that materialising other entities publishes are excepted.
- AuditLog.Log.WriteLine: a line is torn between characters, not inside the bytes of one.
- SnapshotTransfer.Publish: each file has one content while it is read again; file modes are not modelled, and sizes do not overflow 64 bits.
- SnapshotTransfer.Materialise: paths lead to one file exactly when they are written the same, and a file never stands where another path needs a directory.
- RunRelay.SealedCompleteIff: the daemon does not enforce that no event follows the terminal record; `CompleteIff` does not need it.
- OoxmlParts.ReplaceInParts: directory entries, file names and the final rename are not modelled.
- RfbServe.Serve: the handshake and failing answers to pings are not modelled.
- The Windows desktop module, which repeats the Linux one, and Tight JPEG compression.
- HTTP, WebSocket and process plumbing, the lease loop, Codex sessions, secret redaction, PDF and legacy Office conversion, and the user interface.
