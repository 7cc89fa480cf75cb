/** When an agent that is left alone finishes: every change answered and acknowledged and every log row delivered. */
module SyncLiveness {
  import opened Outcomes
  import opened SyncTypes
  import opened SyncPayload
  import opened SyncStore
  import opened SyncServer
  import opened SyncSystem
  import opened SyncInvariant
  import opened SyncAgentSteps
  import opened SyncSettleSteps
  import opened SyncPullSteps
  import opened SyncConvergence
  import opened SyncGrounding

  /** A cursor that comes after the log. */
  function NextCursor(v: Server): (cursor: nat)
    ensures FreshCursor(v, cursor)
  {
    if v.log == [] then 1 else v.log[|v.log| - 1].cursor + 1
  }

  /** The step the agent takes next. */
  function AgentNext(s: System): Step {
    match s.agent
    case Idle => BeginCycle
    case NextPush(_) => FetchOutbox
    case Sending(_) => SendNext(NextCursor(s.server))
    case Settling(_, _, _) => if MustOpen(s.agent) then OpenConflict else AckNext
    case NextPull(_) => FetchRemote
    case Applying(_, _, _) => ApplyNext
  }

  /** The system after `n` steps of an agent that nobody disturbs. */
  function Course(cfg: Config, s: System, n: nat): System
    decreases n
  {
    if n == 0 then s else Course(cfg, Do(cfg, s, AgentNext(s)), n - 1)
  }

  function Backlog(cfg: Config, s: System): nat {
    var acknowledged := PeerOf(s.store, cfg.peer).localCursor;
    if acknowledged < |s.store.outbox| then |s.store.outbox| - acknowledged else 0
  }

  function Undelivered(cfg: Config, s: System): nat {
    |s.server.log| - FirstAfter(s.server.log, PeerOf(s.store, cfg.peer).remoteCursor)
  }

  /** The agent rests, and nothing is left to push or to pull. */
  predicate Drained(cfg: Config, s: System) {
    s.agent.Idle? && Backlog(cfg, s) == 0 && Undelivered(cfg, s) == 0
  }

  // ---- what finishing takes ----

  predicate AllDeliverable(s: System) {
    forall i :: 0 <= i < |s.server.log| ==> Deliverable(s.server.log[i])
  }

  /** Every change that is not acknowledged can be mapped and passes the server's validation. */
  predicate AllSendable(cfg: Config, s: System) {
    forall i :: PeerOf(s.store, cfg.peer).localCursor <= i < |s.store.outbox| ==>
      Sendable(cfg, s.store.outbox[i], i + 1)
  }

  /** What the server answers to a change now. */
  function Response(cfg: Config, v: Server, c: LocalChange, cursor: nat): Result<(Server, Answer), SyncError> {
    var change := ChangeForServer(cfg, c, cursor);
    if change.Err? then Err(change.error) else ApplyChange(cfg.policy, v, change.value, NextCursor(v))
  }

  /** The server accepts, rejects or replays the change rather than refusing it, and what it logs can be delivered. */
  predicate Handled(cfg: Config, v: Server, c: LocalChange, cursor: nat) {
    var response := Response(cfg, v, c, cursor);
    && response.Ok?
    && forall i :: |v.log| <= i < |response.value.0.log| ==> Deliverable(response.value.0.log[i])
  }

  /** The changes from index `i` on, sent in order from this state of the server, are all handled. */
  predicate Pushable(cfg: Config, v: Server, outbox: seq<LocalChange>, i: nat)
    decreases |outbox| - i
  {
    i >= |outbox|
    || (Handled(cfg, v, outbox[i], i + 1) && Pushable(cfg, Response(cfg, v, outbox[i], i + 1).value.0, outbox, i + 1))
  }

  /** The server once the changes from index `i` on have been handled. */
  function ServerAfter(cfg: Config, v: Server, outbox: seq<LocalChange>, i: nat): Server
    requires Pushable(cfg, v, outbox, i)
    decreases |outbox| - i
  {
    if i >= |outbox| then v else ServerAfter(cfg, Response(cfg, v, outbox[i], i + 1).value.0, outbox, i + 1)
  }

  /** The outbox index that is sent next. */
  function NextIndex(cfg: Config, s: System): nat {
    match s.agent
    case Sending(b) => b.base + |b.answers|
    case Settling(b, _, _) => b.base + |b.page|
    case _ => PeerOf(s.store, cfg.peer).localCursor
  }

  /** The daemon can accept every row of the log, and the server refuses none of the changes that are still to be
      answered. */
  predicate Ready(cfg: Config, s: System) {
    AllDeliverable(s) && AllSendable(cfg, s) && Pushable(cfg, s.server, s.store.outbox, NextIndex(cfg, s))
  }

  /** The server once nothing is left to push. */
  function Outcome(cfg: Config, s: System): Server
    requires Ready(cfg, s)
  {
    ServerAfter(cfg, s.server, s.store.outbox, NextIndex(cfg, s))
  }

  // ---- the measure ----

  /** How far the agent is from its next acknowledgement; nothing if there is nothing to push. */
  function Stage(cfg: Config, s: System): nat {
    if Backlog(cfg, s) == 0 then 0
    else match s.agent
      case Idle => 201
      case NextPush(round) => if round >= ROUNDS then 203 else 200
      case Sending(b) => if |b.answers| < |b.page| then 3 + |b.page| - |b.answers| else 3
      case Settling(_, _, recorded) => if recorded then 1 else 2
      case NextPull(_) => 202
      case Applying(_, _, _) => 202
  }

  /** How far the agent is from its next delivery. */
  function Turn(cfg: Config, s: System): nat {
    match s.agent
    case Idle => if Drained(cfg, s) then 0 else 5
    case NextPush(_) => 4
    case NextPull(round) => if round >= ROUNDS then 6 else 3
    case Applying(_, _, _) => 2
    case _ => 0
  }

  predicate Closer(cfg: Config, t: System, s: System) {
    || Backlog(cfg, t) < Backlog(cfg, s)
    || (Backlog(cfg, t) == Backlog(cfg, s) && (
          || Stage(cfg, t) < Stage(cfg, s)
          || (Stage(cfg, t) == Stage(cfg, s) && (
                || Undelivered(cfg, t) < Undelivered(cfg, s)
                || (Undelivered(cfg, t) == Undelivered(cfg, s) && Turn(cfg, t) < Turn(cfg, s))))))
  }

  // ---- every step of the agent comes closer ----

  lemma {:induction false} RestingComesCloser(cfg: Config, s: System)
    requires (s.agent.Idle? && !Drained(cfg, s)) || s.agent.NextPush? || s.agent.NextPull?
    ensures Closer(cfg, Do(cfg, s, AgentNext(s)), s)
  {
    hide FirstAfter;
    RestingKeepsTables(cfg, s);
  }

  lemma {:induction false} RestingKeepsTables(cfg: Config, s: System)
    requires s.agent.Idle? || s.agent.NextPush? || s.agent.NextPull?
    ensures var t := Do(cfg, s, AgentNext(s));
            t.store == s.store && t.server == s.server && NextIndex(cfg, t) == NextIndex(cfg, s)
  {
  }

  /** The page being sent is a part of the outbox. */
  predicate PageFits(s: System) {
    && s.agent.Sending?
    && var b := s.agent.batch;
       |b.answers| < |b.page| && b.base + |b.page| <= |s.store.outbox|
       && b.page == s.store.outbox[b.base..b.base + |b.page|]
  }

  lemma {:induction false} SendingParts(cfg: Config, s: System)
    requires Inv(cfg, s) && s.agent.Sending?
    ensures PageFits(s) && |s.agent.batch.page| <= PAGE && PeerOf(s.store, cfg.peer).localCursor == s.agent.batch.base
  {
    hide ServerOk, StoreOk, RemoteCursorOk, OperationsOk, KeyOk;
  }

  lemma {:induction false} PageIsSendable(cfg: Config, s: System)
    requires Inv(cfg, s) && AllSendable(cfg, s) && s.agent.Sending?
    ensures PageSendable(cfg, s.agent.batch)
  {
    hide Inv, Sendable;
    SendingParts(cfg, s);
    var b := s.agent.batch;
    assert forall i :: 0 <= i < |b.page| ==> b.page[i] == s.store.outbox[b.base + i];
  }

  /** What a step of a batch does, when it is not refused. */
  lemma {:induction false} SendStep(cfg: Config, s: System)
    requires PageFits(s) && (s.agent.batch.answers == [] ==> PageSendable(cfg, s.agent.batch))
    requires var i := NextIndex(cfg, s); i < |s.store.outbox| && Response(cfg, s.server, s.store.outbox[i], i + 1).Ok?
    ensures var t := Do(cfg, s, AgentNext(s)); var i := NextIndex(cfg, s);
            && t.store == s.store && t.server == Response(cfg, s.server, s.store.outbox[i], i + 1).value.0
            && NextIndex(cfg, t) == i + 1
            && (t.agent.Sending? ==> t.agent.batch.page == s.agent.batch.page
                                     && |t.agent.batch.answers| == |s.agent.batch.answers| + 1 < |t.agent.batch.page|)
            && (t.agent.Sending? || (t.agent.Settling? && !t.agent.recorded))
  {
    hide ChangeForServer, ApplyChange, PageSendable;
    var b := s.agent.batch;
    assert b.page[|b.answers|] == s.store.outbox[b.base + |b.answers|];
  }

  lemma {:induction false} SendingComesCloser(cfg: Config, s: System)
    requires Inv(cfg, s) && Ready(cfg, s) && s.agent.Sending?
    ensures var t := Do(cfg, s, AgentNext(s)); Closer(cfg, t, s) && Ready(cfg, t) && Outcome(cfg, t) == Outcome(cfg, s)
  {
    hide Inv, Deliverable, Response, Do, AgentNext, FirstAfter, PageSendable, Sendable;
    SendingParts(cfg, s);
    PageIsSendable(cfg, s);
    var i := NextIndex(cfg, s);
    assert Handled(cfg, s.server, s.store.outbox[i], i + 1);
    SendStep(cfg, s);
    AnswerGrows(cfg, s.server, s.store.outbox[i], i + 1);
  }

  lemma {:induction false} AnswerGrows(cfg: Config, v: Server, c: LocalChange, cursor: nat)
    requires Response(cfg, v, c, cursor).Ok?
    ensures v.log <= Response(cfg, v, c, cursor).value.0.log
  {
    hide ChangeForServer, ApplyChange, NextCursor;
    ApplyGrows(cfg.policy, v, ChangeForServer(cfg, c, cursor).value, NextCursor(v));
  }

  lemma {:induction false} RejectionIsExplained(cfg: Config, s: System)
    requires Inv(cfg, s) && Live(cfg, s) && MustOpen(s.agent)
    ensures s.agent.batch.answers[s.agent.next].current.Some?
  {
    hide Inv, Settled, AnswerOk, Grounded, DeliveredOk, LocalSides, PageChecked;
    SettlingParts(cfg, s);
    assert Answered(cfg, s.server, s.agent.batch.base + s.agent.next + 1, s.agent.batch.answers[s.agent.next]);
  }

  lemma {:induction false} HandOverSucceeds(cfg: Config, s: System)
    requires Inv(cfg, s) && Live(cfg, s) && AllDeliverable(s) && MustOpen(s.agent)
    ensures var a := s.agent; var current := a.batch.answers[a.next].current;
            current.Some? && Acceptable(a.batch.page[a.next].key, current.value)
  {
    hide Inv, Live, Acceptable, Settled, BatchOk;
    var a := s.agent;
    SettlingParts(cfg, s);
    RejectionIsExplained(cfg, s);
    var e := a.batch.answers[a.next].current.value;
    var i :| 0 <= i < |s.server.log| && s.server.log[i].key == a.batch.page[a.next].key && s.server.log[i].entity == e;
    assert Deliverable(s.server.log[i]);
  }

  /** What a step of settling does, when the hand-over succeeds. */
  lemma {:induction false} SettleStep(cfg: Config, s: System)
    requires Inv(cfg, s) && s.agent.Settling?
    requires MustOpen(s.agent) ==>
               var current := s.agent.batch.answers[s.agent.next].current;
               current.Some? && Acceptable(s.agent.batch.page[s.agent.next].key, current.value)
    ensures var t := Do(cfg, s, AgentNext(s)); var p := PeerOf(s.store, cfg.peer); var q := PeerOf(t.store, cfg.peer);
            && t.server == s.server && t.store.outbox == s.store.outbox && NextIndex(cfg, t) == NextIndex(cfg, s)
            && q.remoteCursor == p.remoteCursor
            && p.localCursor < |s.store.outbox| && s.agent.batch.base <= p.localCursor < NextIndex(cfg, s)
            && (MustOpen(s.agent) ==> !s.agent.recorded && q.localCursor == p.localCursor
                                      && t.agent == Settling(s.agent.batch, s.agent.next, true))
            && (!MustOpen(s.agent) ==> q.localCursor == p.localCursor + 1)
  {
    hide Inv, BatchOk, AnswerOk, Settled, ApplyRemote, ValidRemote, RemoteOf, NamedId, IsDaemonKind;
    var a := s.agent;
    SettlingParts(cfg, s);
    SettlingBatch(cfg, s);
    if MustOpen(a) {
      SeenBound(cfg, s, a.batch);
      AppliedShape(cfg, s.store, a.batch.seen,
                   RemoteOf(a.batch.page[a.next].key, a.batch.answers[a.next].current.value));
    }
  }

  lemma {:induction false} SettlingBatch(cfg: Config, s: System)
    requires Inv(cfg, s) && s.agent.Settling?
    ensures s.agent.batch.base + |s.agent.batch.page| <= |s.store.outbox|
  {
    hide ServerOk, StoreOk, RemoteCursorOk, OperationsOk, KeyOk, Settled;
  }

  lemma {:induction false} SettlingComesCloser(cfg: Config, s: System)
    requires Inv(cfg, s) && Live(cfg, s) && Ready(cfg, s) && s.agent.Settling?
    ensures var t := Do(cfg, s, AgentNext(s)); Closer(cfg, t, s) && Ready(cfg, t) && Outcome(cfg, t) == Outcome(cfg, s)
  {
    hide Inv, Live, Deliverable, Do, AgentNext, Acceptable, Sendable, Pushable, FirstAfter;
    if MustOpen(s.agent) {
      HandOverSucceeds(cfg, s);
    }
    SettleStep(cfg, s);
  }

  /** One more row is delivered, and nothing else changes but the agent. */
  lemma {:induction false} AppliesNext(cfg: Config, s: System)
    requires Inv(cfg, s) && s.agent.Applying?
    requires var k := FirstAfter(s.server.log, PeerOf(s.store, cfg.peer).remoteCursor);
             k < |s.server.log| ==> Deliverable(s.server.log[k])
    ensures var t := Do(cfg, s, AgentNext(s)); var p := PeerOf(s.store, cfg.peer);
            var k := FirstAfter(s.server.log, p.remoteCursor);
            && t.server == s.server && t.store.outbox == s.store.outbox && k < |s.server.log|
            && PeerOf(t.store, cfg.peer) == p.(remoteCursor := s.server.log[k].cursor)
            && FirstAfter(s.server.log, s.server.log[k].cursor) == k + 1
            && (t.agent.Applying? || t.agent.NextPull? || t.agent.Idle?)
  {
    hide Inv, ApplyRemote, ValidRemote, RemoteOf, FirstAfter, NamedId, IsDaemonKind;
    ApplyingParts(cfg, s);
    NextRow(cfg, s);
    var row := s.agent.rows[s.agent.done];
    AppliedShape(cfg, s.store, row.cursor, RemoteOf(row.key, row.entity));
  }

  lemma {:induction false} ApplyingParts(cfg: Config, s: System)
    requires Inv(cfg, s) && s.agent.Applying?
    ensures s.agent.done < |s.agent.rows|
  {
    hide ServerOk, StoreOk, RemoteCursorOk, OperationsOk, KeyOk;
  }

  lemma {:induction false} ApplyingComesCloser(cfg: Config, s: System)
    requires Inv(cfg, s) && Ready(cfg, s) && s.agent.Applying?
    ensures var t := Do(cfg, s, AgentNext(s)); Closer(cfg, t, s) && Ready(cfg, t) && Outcome(cfg, t) == Outcome(cfg, s)
  {
    hide Inv, Do, AgentNext, Turn, FirstAfter, Deliverable, Sendable, Pushable;
    AppliesNext(cfg, s);
  }

  lemma {:induction false} NextComesCloser(cfg: Config, s: System)
    requires Inv(cfg, s) && Live(cfg, s) && Ready(cfg, s) && !Drained(cfg, s)
    ensures var t := Do(cfg, s, AgentNext(s));
            && Inv(cfg, t) && Live(cfg, t) && Ready(cfg, t) && Closer(cfg, t, s)
            && Outcome(cfg, t) == Outcome(cfg, s)
  {
    hide Inv, Live, Do, Drained, Ready, Closer, AgentNext, WellFormed, Outcome;
    var step := AgentNext(s);
    AgentStepIsWellFormed(cfg, s);
    StepKeeps(cfg, s, step);
    StepLives(cfg, s, step);
    match s.agent {
      case Sending(_) => SendingComesCloser(cfg, s);
      case Settling(_, _, _) => SettlingComesCloser(cfg, s);
      case Applying(_, _, _) => ApplyingComesCloser(cfg, s);
      case _ =>
        RestingComesCloser(cfg, s);
        RestingKeepsTables(cfg, s);
        SameReady(cfg, s, Do(cfg, s, step));
    }
  }

  lemma {:induction false} AgentStepIsWellFormed(cfg: Config, s: System)
    ensures WellFormed(cfg, AgentNext(s))
  {
  }

  lemma {:induction false} SameReady(cfg: Config, s: System, t: System)
    requires t.store == s.store && t.server == s.server && NextIndex(cfg, t) == NextIndex(cfg, s)
    ensures Ready(cfg, s) <==> Ready(cfg, t)
    ensures Ready(cfg, s) ==> Outcome(cfg, t) == Outcome(cfg, s)
  {
    hide Deliverable, Sendable, Pushable, NextIndex, ServerAfter;
  }

  // ---- an undisturbed agent finishes ----

  lemma {:induction false} NothingLeft(cfg: Config, s: System)
    requires Drained(cfg, s) && Ready(cfg, s)
    ensures Outcome(cfg, s) == s.server
  {
  }

  lemma {:induction false} CourseDrains(cfg: Config, s: System) returns (n: nat)
    requires Inv(cfg, s) && Live(cfg, s) && Ready(cfg, s)
    ensures Drained(cfg, Course(cfg, s, n)) && Inv(cfg, Course(cfg, s, n))
            && Course(cfg, s, n).server == Outcome(cfg, s)
    decreases Backlog(cfg, s), Stage(cfg, s), Undelivered(cfg, s), Turn(cfg, s)
  {
    hide Inv, Live, Ready, Do, AgentNext, Drained, Backlog, Stage, Undelivered, Turn, Outcome;
    if Drained(cfg, s) {
      NothingLeft(cfg, s);
      n := 0;
    } else {
      NextComesCloser(cfg, s);
      var rest := CourseDrains(cfg, Do(cfg, s, AgentNext(s)));
      n := rest + 1;
    }
  }

  /** Once drained, an entity agrees unless a conflict about it waits for the user. */
  lemma {:induction false} DrainedAgrees(cfg: Config, s: System, key: Key)
    requires Inv(cfg, s) && Drained(cfg, s) && !HasOpen(s.store, cfg.peer, key)
    ensures Agrees(s, key)
  {
    hide StoreOk, RemoteCursorOk, OperationsOk, AgentOk, KeyOk, ServerOk, Agrees;
    assert KeyOk(s.store, s.server.log, cfg.peer, key);
    QuiescentAgrees(cfg, s, key);
  }

  lemma {:induction false} RunLives(cfg: Config, steps: seq<Step>)
    requires WellFormedRun(cfg, steps)
    ensures Inv(cfg, Run(cfg, INITIAL, steps)) && Live(cfg, Run(cfg, INITIAL, steps))
  {
    hide Inv, Live, Do, WellFormed;
    if steps == [] {
      InitialOk(cfg);
      InitiallyLive(cfg);
    } else {
      var n := |steps| - 1;
      RunLives(cfg, steps[..n]);
      StepKeeps(cfg, Run(cfg, INITIAL, steps[..n]), steps[n]);
      StepLives(cfg, Run(cfg, INITIAL, steps[..n]), steps[n]);
    }
  }

  /** From every reachable state that is ready, an agent that is left alone reaches a state in which every outbox change
      is acknowledged, every log row is delivered, and every entity without an open conflict is the same on the device
      and on the server. */
  lemma {:induction false} EventuallyAgrees(cfg: Config, steps: seq<Step>) returns (n: nat)
    requires WellFormedRun(cfg, steps) && Ready(cfg, Run(cfg, INITIAL, steps))
    ensures var s := Course(cfg, Run(cfg, INITIAL, steps), n);
            && Drained(cfg, s) && s.server == Outcome(cfg, Run(cfg, INITIAL, steps))
            && forall key :: !HasOpen(s.store, cfg.peer, key) ==> Agrees(s, key)
  {
    hide Inv, Live, Ready, Drained, Agrees, Course, Run, Outcome;
    RunLives(cfg, steps);
    n := CourseDrains(cfg, Run(cfg, INITIAL, steps));
    var s := Course(cfg, Run(cfg, INITIAL, steps), n);
    forall key | !HasOpen(s.store, cfg.peer, key)
      ensures Agrees(s, key)
    {
      DrainedAgrees(cfg, s, key);
    }
  }

  // ---- and only then ----

  lemma {:induction false} DrainedIsReady(cfg: Config, s: System)
    requires Live(cfg, s) && Drained(cfg, s)
    ensures Ready(cfg, s)
  {
    hide Live, Deliverable, Sendable;
    DeliveredAre(cfg, s);
  }

  /** The change at an outbox index has been answered by the server. */
  predicate Sent(cfg: Config, v: Server, i: nat) {
    OperationId(cfg.device, i + 1) in v.operations
  }

  /** Replays leave the server as it is, so what can be pushed from before them can be pushed from behind them. */
  lemma {:induction false} PushableBehindReplays(cfg: Config, v: Server, outbox: seq<LocalChange>, j: nat, i: nat)
    requires j <= i <= |outbox| && Pushable(cfg, v, outbox, j)
    requires forall k :: j <= k < i ==> Sent(cfg, v, k)
    ensures Pushable(cfg, v, outbox, i)
    decreases i - j
  {
    if j < i {
      assert Sent(cfg, v, j);
      ReplayKeepsServer(cfg, v, outbox[j], j + 1);
      PushableBehindReplays(cfg, v, outbox, j + 1, i);
    }
  }

  lemma {:induction false} ReplayKeepsServer(cfg: Config, v: Server, c: LocalChange, cursor: nat)
    requires OperationId(cfg.device, cursor) in v.operations && Response(cfg, v, c, cursor).Ok?
    ensures Response(cfg, v, c, cursor).value.0 == v
  {
    hide ToServer, Accept, Remember;
  }

  lemma {:induction false} SentBefore(cfg: Config, s: System, i: nat)
    requires Inv(cfg, s) && (s.agent.Sending? || s.agent.Settling?)
    requires PeerOf(s.store, cfg.peer).localCursor <= i < NextIndex(cfg, s)
    ensures OperationId(cfg.device, i + 1) in s.server.operations && NextIndex(cfg, s) <= |s.store.outbox|
  {
    hide ServerOk, StoreOk, RemoteCursorOk, OperationsOk, KeyOk, Settled;
    var b := s.agent.batch;
    assert Answered(cfg, s.server, b.base + (i - b.base) + 1, b.answers[i - b.base]);
  }

  /** An aborted batch does not help: what can be pushed from its start can be pushed from where it stood. */
  lemma {:induction false} AbortDoesNotHelp(cfg: Config, s: System)
    requires Inv(cfg, s) && (s.agent.Sending? || s.agent.Settling?)
    requires Ready(cfg, s.(agent := Idle))
    ensures Ready(cfg, s)
  {
    hide Inv, Deliverable, Sendable, Pushable;
    var j := PeerOf(s.store, cfg.peer).localCursor;
    var i := NextIndex(cfg, s);
    forall k | j <= k < i
      ensures Sent(cfg, s.server, k)
    {
      SentBefore(cfg, s, k);
    }
    IndexInRange(cfg, s);
    PushableBehindReplays(cfg, s.server, s.store.outbox, j, i);
  }

  lemma {:induction false} IndexInRange(cfg: Config, s: System)
    requires Inv(cfg, s) && (s.agent.Sending? || s.agent.Settling?)
    ensures PeerOf(s.store, cfg.peer).localCursor <= NextIndex(cfg, s) <= |s.store.outbox|
  {
    hide ServerOk, StoreOk, RemoteCursorOk, OperationsOk, KeyOk, Settled;
  }

  lemma {:induction false} SendingWasReady(cfg: Config, s: System)
    requires Inv(cfg, s) && Live(cfg, s) && s.agent.Sending? && Ready(cfg, Do(cfg, s, AgentNext(s)))
    ensures Ready(cfg, s)
  {
    hide Inv, Live, Deliverable, Response, Do, AgentNext, Sendable, Ready;
    SendingParts(cfg, s);
    var i := NextIndex(cfg, s);
    var b := s.agent.batch;
    var t := Do(cfg, s, AgentNext(s));
    if Response(cfg, s.server, s.store.outbox[i], i + 1).Ok? && (b.answers == [] ==> PageSendable(cfg, b)) {
      SendStep(cfg, s);
      AnswerGrows(cfg, s.server, s.store.outbox[i], i + 1);
      ReadyBefore(cfg, s, t);
    } else {
      RefusedSend(cfg, s);
      AbortDoesNotHelp(cfg, s);
    }
  }

  lemma {:induction false} ReadyBefore(cfg: Config, s: System, t: System)
    requires var i := NextIndex(cfg, s);
             && i < |s.store.outbox| && NextIndex(cfg, t) == i + 1 && t.store == s.store
             && Response(cfg, s.server, s.store.outbox[i], i + 1).Ok?
             && t.server == Response(cfg, s.server, s.store.outbox[i], i + 1).value.0
    requires s.server.log <= t.server.log && Ready(cfg, t)
    ensures Ready(cfg, s)
  {
    hide Deliverable, Sendable, Response;
    assert forall i :: 0 <= i < |s.server.log| ==> s.server.log[i] == t.server.log[i];
  }

  lemma {:induction false} RefusedSend(cfg: Config, s: System)
    requires PageFits(s)
    requires var i := NextIndex(cfg, s); var b := s.agent.batch;
             !(Response(cfg, s.server, s.store.outbox[i], i + 1).Ok? && (b.answers == [] ==> PageSendable(cfg, b)))
    ensures Do(cfg, s, AgentNext(s)) == s.(agent := Idle)
  {
    hide ChangeForServer, ApplyChange, PageSendable;
    var b := s.agent.batch;
    assert b.page[|b.answers|] == s.store.outbox[b.base + |b.answers|];
  }

  lemma {:induction false} SettlingWasReady(cfg: Config, s: System)
    requires Inv(cfg, s) && Live(cfg, s) && s.agent.Settling? && Ready(cfg, Do(cfg, s, AgentNext(s)))
    ensures Ready(cfg, s)
  {
    hide Inv, Live, Deliverable, Do, AgentNext, Acceptable, Sendable, Pushable;
    var a := s.agent;
    if MustOpen(a) && (a.batch.answers[a.next].current.None?
                       || !Acceptable(a.batch.page[a.next].key, a.batch.answers[a.next].current.value)) {
      RefusedHandOver(cfg, s);
      AbortDoesNotHelp(cfg, s);
    } else {
      SettleStep(cfg, s);
      SettlingIsSendable(cfg, s);
    }
  }

  lemma {:induction false} SettlingIsSendable(cfg: Config, s: System)
    requires Inv(cfg, s) && Live(cfg, s) && s.agent.Settling?
    ensures var i := PeerOf(s.store, cfg.peer).localCursor;
            i < |s.store.outbox| && Sendable(cfg, s.store.outbox[i], i + 1)
  {
    hide Inv, Live, AnswerOk, Settled, Sendable;
    SettlingParts(cfg, s);
    SettlingPage(cfg, s);
  }

  lemma {:induction false} RefusedHandOver(cfg: Config, s: System)
    requires MustOpen(s.agent)
    requires var a := s.agent;
             a.batch.answers[a.next].current.None?
             || !Acceptable(a.batch.page[a.next].key, a.batch.answers[a.next].current.value)
    ensures Do(cfg, s, AgentNext(s)) == s.(agent := Idle)
  {
    hide Acceptable;
  }

  lemma {:induction false} ApplyingWasReady(cfg: Config, s: System)
    requires Inv(cfg, s) && s.agent.Applying? && Ready(cfg, Do(cfg, s, AgentNext(s)))
    ensures Ready(cfg, s)
  {
    hide Inv, Do, AgentNext, FirstAfter, Deliverable, Sendable, Pushable;
    ApplyingParts(cfg, s);
    NextRow(cfg, s);
    var k := FirstAfter(s.server.log, PeerOf(s.store, cfg.peer).remoteCursor);
    if Deliverable(s.server.log[k]) {
      AppliesNext(cfg, s);
    } else {
      RefusedRow(cfg, s);
    }
  }

  lemma {:induction false} RefusedRow(cfg: Config, s: System)
    requires s.agent.Applying? && s.agent.done < |s.agent.rows| && !Deliverable(s.agent.rows[s.agent.done])
    ensures Do(cfg, s, AgentNext(s)) == s.(agent := Idle)
  {
    hide Acceptable;
  }

  /** What is not ready does not become ready by itself. */
  lemma {:induction false} NextWasReady(cfg: Config, s: System)
    requires Inv(cfg, s) && Live(cfg, s) && Ready(cfg, Do(cfg, s, AgentNext(s)))
    ensures Ready(cfg, s)
  {
    hide Inv, Live, Ready, Do, AgentNext;
    match s.agent {
      case Sending(_) => SendingWasReady(cfg, s);
      case Settling(_, _, _) => SettlingWasReady(cfg, s);
      case Applying(_, _, _) => ApplyingWasReady(cfg, s);
      case _ =>
        RestingKeepsTables(cfg, s);
        SameReady(cfg, s, Do(cfg, s, AgentNext(s)));
    }
  }

  /** From a state that is not ready the agent never finishes, however long it goes on. */
  lemma {:induction false} BlockedForever(cfg: Config, s: System, n: nat)
    requires Inv(cfg, s) && Live(cfg, s) && !Ready(cfg, s)
    ensures !Drained(cfg, Course(cfg, s, n))
    decreases n
  {
    hide Inv, Live, Ready, Drained, Do, AgentNext, WellFormed;
    if n == 0 {
      if Drained(cfg, s) {
        DrainedIsReady(cfg, s);
      }
    } else {
      var step := AgentNext(s);
      AgentStepIsWellFormed(cfg, s);
      StepKeeps(cfg, s, step);
      StepLives(cfg, s, step);
      if Ready(cfg, Do(cfg, s, step)) {
        NextWasReady(cfg, s);
      }
      BlockedForever(cfg, Do(cfg, s, step), n - 1);
    }
  }

  /** An undisturbed agent finishes from a reachable state if and only if the daemon accepts every row of the log, and
      every change that is not answered yet passes validation and, sent in order from the present state of the server,
      is accepted, rejected or replayed rather than refused. */
  lemma {:induction false} DrainsIff(cfg: Config, steps: seq<Step>)
    requires WellFormedRun(cfg, steps)
    ensures (exists n :: Drained(cfg, Course(cfg, Run(cfg, INITIAL, steps), n))) <==>
              Ready(cfg, Run(cfg, INITIAL, steps))
  {
    hide Inv, Live, Ready, Drained, Course, Run;
    RunLives(cfg, steps);
    var s := Run(cfg, INITIAL, steps);
    if Ready(cfg, s) {
      var n := CourseDrains(cfg, s);
    } else {
      forall n: nat
        ensures !Drained(cfg, Course(cfg, s, n))
      {
        BlockedForever(cfg, s, n);
      }
    }
  }
}
