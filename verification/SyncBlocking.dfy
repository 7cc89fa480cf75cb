/** What keeps a synchronisation cycle from ever finishing: refused pushes, refused replays, and refused rows. */
module SyncBlocking {
  import opened Outcomes
  import opened SyncTypes
  import opened SyncPayload
  import opened SyncStore
  import opened SyncServer
  import opened SyncSystem
  import opened SyncInvariant
  import opened SyncConvergence
  import opened SyncAgentSteps
  import opened SyncIdentity
  import opened SyncGrounding
  import opened SyncLiveness

  // ---- a refused push blocks everything ----

  /** The page a cycle starts with. */
  function FirstPage(cfg: Config, s: System): Batch
    requires Backlog(cfg, s) > 0
  {
    var p := PeerOf(s.store, cfg.peer);
    var n := |s.store.outbox|;
    Batch(0, p.localCursor,
          s.store.outbox[p.localCursor..if p.localCursor + PAGE <= n then p.localCursor + PAGE else n],
          p.remoteCursor, [])
  }

  /** The first page fails validation, or the server refuses its first change. */
  predicate PushRefused(cfg: Config, s: System) {
    && Backlog(cfg, s) > 0
    && var p := PeerOf(s.store, cfg.peer);
       || !PageSendable(cfg, FirstPage(cfg, s))
       || Response(cfg, s.server, s.store.outbox[p.localCursor], p.localCursor + 1).Err?
  }

  /** The agent goes round between its start and its first request. */
  predicate Waiting(cfg: Config, s: System, t: System)
    requires Backlog(cfg, s) > 0
  {
    t == s.(agent := Idle) || t == s.(agent := NextPush(0)) || t == s.(agent := Sending(FirstPage(cfg, s)))
  }

  lemma {:induction false} WaitingGoesOn(cfg: Config, s: System, t: System)
    requires PushRefused(cfg, s) && Waiting(cfg, s, t)
    ensures Waiting(cfg, s, Do(cfg, t, AgentNext(t)))
  {
    hide ChangeForServer, ApplyChange, PageSendable;
  }

  lemma {:induction false} CourseWaits(cfg: Config, s: System, t: System, n: nat)
    requires PushRefused(cfg, s) && Waiting(cfg, s, t)
    ensures Waiting(cfg, s, Course(cfg, t, n))
    decreases n
  {
    hide PushRefused, Waiting, Do, AgentNext;
    if n > 0 {
      BacklogOf(cfg, s);
      WaitingGoesOn(cfg, s, t);
      CourseWaits(cfg, s, Do(cfg, t, AgentNext(t)), n - 1);
    }
  }

  lemma {:induction false} BacklogOf(cfg: Config, s: System)
    requires PushRefused(cfg, s)
    ensures Backlog(cfg, s) > 0
  {
  }

  /** While the first page is refused, the agent neither pushes nor pulls anything, however long it goes on. */
  lemma {:induction false} RefusedPushBlocksAll(cfg: Config, s: System, n: nat)
    requires s.agent.Idle? && PushRefused(cfg, s)
    ensures Course(cfg, s, n).store == s.store && Course(cfg, s, n).server == s.server
            && !Drained(cfg, Course(cfg, s, n))
  {
    hide PushRefused, Course;
    BacklogOf(cfg, s);
    CourseWaits(cfg, s, s, n);
  }

  // ---- inputs that are refused ----

  /** The device creates an entity. */
  function Create(key: Key, payload: Json): seq<Step> {
    [Edit(key, payload, None)]
  }

  lemma {:induction false} Created(cfg: Config, key: Key, payload: Json)
    requires payload.Obj?
    ensures var row := Entity(1, payload, false);
            Run(cfg, INITIAL, Create(key, payload))
            == System(Store(map[], map[key := row], [LocalChange(key, row)], []), INITIAL.server, Idle, map[])
  {
    var step := Edit(key, payload, None);
    FirstWrite(key, payload);
    hide WriteEntity, TombstoneEntity, Resolve, ApplyChange, DoSendNext, DoOpenConflict, DoApplyNext, ValidChange;
    assert Create(key, payload) == [] + [step];
    RunOne(cfg, INITIAL, [], step);
    assert Run(cfg, INITIAL, []) == INITIAL;
  }

  const API_KEY := Obj(map["api_key" := Str("x")])

  /** A profile with a field named like a secret is taken by the daemon and never leaves the device, whatever the
      server's limits are; nothing else is pushed or pulled from then on. */
  lemma {:induction false} SecretFieldBlocks(cfg: Config, id: string, n: nat)
    requires Trim(id) == id
    ensures var steps := Create(Key("provider_profile", id), API_KEY); var s := Run(cfg, INITIAL, steps);
            && WellFormedRun(cfg, steps) && PushRefused(cfg, s)
            && Course(cfg, s, n).store == s.store && Course(cfg, s, n).server == s.server
            && !Drained(cfg, Course(cfg, s, n))
  {
    var key := Key("provider_profile", id);
    var s := Run(cfg, INITIAL, Create(key, API_KEY));
    Created(cfg, key, API_KEY);
    SecretIsInvalid(cfg, key);
    hide Course, ValidChange, ChangeForServer;
    assert !Sendable(cfg, FirstPage(cfg, s).page[0], 1);
    RefusedPushBlocksAll(cfg, s, n);
  }

  lemma {:induction false} SecretIsInvalid(cfg: Config, key: Key)
    requires key.kind == "provider_profile"
    ensures !Sendable(cfg, LocalChange(key, Entity(1, API_KEY, false)), 1)
  {
    var change := ChangeForServer(cfg, LocalChange(key, Entity(1, API_KEY, false)), 1).value;
    assert Lower("api_key") == "api_key";
    assert "api_key" in change.payload.value.fields;
    assert ContainsSecret(change.payload.value);
  }

  /** So does a creation that the storage quota or materialisation refuses. */
  lemma {:induction false} RefusedCreationBlocks(cfg: Config, key: Key, payload: Json, n: nat)
    requires Homeward(cfg.ids, key, payload)
    requires cfg.policy.refuses(INITIAL.server,
                                ChangeForServer(cfg, LocalChange(key, Entity(1, payload, false)), 1).value)
    ensures var steps := Create(key, payload); var s := Run(cfg, INITIAL, steps);
            && WellFormedRun(cfg, steps) && PushRefused(cfg, s)
            && Course(cfg, s, n).store == s.store && Course(cfg, s, n).server == s.server
            && !Drained(cfg, Course(cfg, s, n))
  {
    var s := Run(cfg, INITIAL, Create(key, payload));
    Created(cfg, key, payload);
    ChangeShape(cfg, LocalChange(key, Entity(1, payload, false)), 1);
    hide Course, PageSendable, ChangeForServer;
    assert Response(cfg, s.server, s.store.outbox[0], 1).Err?;
    RefusedPushBlocksAll(cfg, s, n);
  }

  /** A payload without numbers that a column changes. */
  predicate Keeps(payload: Option<Json>) {
    Stored(payload) == payload
  }

  /** A change that was answered is answered again if and only if it survives the operations table: its timestamp is a
      whole number of microseconds, and its payload has no number that a column changes. */
  lemma {:induction false} ReplayIff(cfg: Config, s: System, c: nat)
    requires Inv(cfg, s) && OperationId(cfg.device, c) in s.server.operations
    ensures 1 <= c <= |s.store.outbox| && ChangeForServer(cfg, s.store.outbox[c - 1], c).Ok?
    ensures Response(cfg, s.server, s.store.outbox[c - 1], c).Ok? <==>
              cfg.clock(c) % 1000 == 0 && Keeps(ChangeForServer(cfg, s.store.outbox[c - 1], c).value.payload)
  {
    StoredIsSent(cfg, s, c);
    hide Inv, ToServer, Column;
  }

  /** The answer to the first push is lost. */
  function LostAnswer(key: Key, payload: Json): seq<Step> {
    FirstPush(key, payload) + [Abort]
  }

  lemma {:induction false} AnswerIsLost(cfg: Config, key: Key, payload: Json)
    requires TakesMine(cfg, key, payload)
    ensures var s := Run(cfg, INITIAL, LostAnswer(key, payload));
            && s.store == FirstStore(key, payload) && s.agent == Idle
            && OperationId(cfg.device, 1) in s.server.operations
            && s.server.log == [ServerRow(1, key, FirstEntity(cfg, key, payload))]
  {
    FirstPushed(cfg, key, payload);
    RunOne(cfg, INITIAL, FirstPush(key, payload), Abort);
    Aborted(cfg, Run(cfg, INITIAL, FirstPush(key, payload)));
    hide Do, Run, TakesMine, ToServer, Column;
  }

  lemma {:induction false} Aborted(cfg: Config, s: System)
    ensures Do(cfg, s, Abort) == s.(agent := Idle)
  {
  }

  /** The first change comes back from the operations table unchanged. */
  predicate FirstSurvives(cfg: Config, key: Key, payload: Json)
    requires payload.Obj?
  {
    cfg.clock(1) % 1000 == 0 && Keeps(Some(ToServer(cfg.ids, key.kind, key.id, payload).value))
  }

  /** After a lost answer, a timestamp that is not a whole number of microseconds blocks everything, and so does a
      number that a column changes. */
  lemma {:induction false} LostAnswerBlocks(cfg: Config, key: Key, payload: Json, n: nat)
    requires TakesMine(cfg, key, payload) && Homeward(cfg.ids, key, payload) && !FirstSurvives(cfg, key, payload)
    ensures var steps := LostAnswer(key, payload); var s := Run(cfg, INITIAL, steps);
            && WellFormedRun(cfg, steps) && PushRefused(cfg, s)
            && Course(cfg, s, n).store == s.store && Course(cfg, s, n).server == s.server
            && !Drained(cfg, Course(cfg, s, n))
  {
    var steps := LostAnswer(key, payload);
    var s := Run(cfg, INITIAL, steps);
    LostAnswerReplays(cfg, key, payload);
    AnswerIsLost(cfg, key, payload);
    hide Inv, Run, Course, Response, PageSendable, TakesMine, LostAnswer, ToServer, Column, Homeward;
    RefusedPushBlocksAll(cfg, s, n);
  }

  /** After a lost answer, the change is answered again if and only if it survives. */
  lemma {:induction false} LostAnswerReplays(cfg: Config, key: Key, payload: Json)
    requires TakesMine(cfg, key, payload) && Homeward(cfg.ids, key, payload)
    ensures var steps := LostAnswer(key, payload); var s := Run(cfg, INITIAL, steps);
            && WellFormedRun(cfg, steps)
            && (Response(cfg, s.server, LocalChange(key, Entity(1, payload, false)), 1).Ok? <==>
                  FirstSurvives(cfg, key, payload))
  {
    var steps := LostAnswer(key, payload);
    assert WellFormedRun(cfg, steps) by {
      hide Homeward;
    }
    AnswerIsLost(cfg, key, payload);
    hide Inv, Run, Response, TakesMine, LostAnswer, ToServer, Column, Homeward;
    InitialOk(cfg);
    RunKeeps(cfg, INITIAL, steps);
    ReplayIff(cfg, Run(cfg, INITIAL, steps), 1);
  }

  /** After a lost answer, an agent that is left alone finishes if and only if the change survives. */
  lemma {:induction false} LostAnswerDrainsIff(cfg: Config, key: Key, payload: Json)
    requires TakesMine(cfg, key, payload) && Homeward(cfg.ids, key, payload) && key.id != ""
    ensures (exists n :: Drained(cfg, Course(cfg, Run(cfg, INITIAL, LostAnswer(key, payload)), n))) <==>
              FirstSurvives(cfg, key, payload)
  {
    var steps := LostAnswer(key, payload);
    LostAnswerReplays(cfg, key, payload);
    AnswerIsLost(cfg, key, payload);
    FirstIsDeliverable(cfg, key, payload);
    FirstIsSendable(cfg, key, payload);
    hide Run, Course, Drained, Ready, Response, Sendable, TakesMine, LostAnswer, ToServer, Deliverable, Column,
         Homeward;
    ReadyIffReplayed(cfg, Run(cfg, INITIAL, steps));
    DrainsIff(cfg, steps);
  }

  lemma {:induction false} ReadyIffReplayed(cfg: Config, s: System)
    requires s.agent.Idle? && s.store.peers == map[] && |s.store.outbox| == 1 && Sendable(cfg, s.store.outbox[0], 1)
    requires |s.server.log| == 1 && Deliverable(s.server.log[0]) && OperationId(cfg.device, 1) in s.server.operations
    ensures Ready(cfg, s) <==> Response(cfg, s.server, s.store.outbox[0], 1).Ok?
  {
    hide Response, Sendable, Deliverable;
    if Response(cfg, s.server, s.store.outbox[0], 1).Ok? {
      ReplayKeepsServer(cfg, s.server, s.store.outbox[0], 1);
      assert Pushable(cfg, s.server, s.store.outbox, 1);
      assert Handled(cfg, s.server, s.store.outbox[0], 1);
    }
    assert NextIndex(cfg, s) == 0;
  }

  lemma {:induction false} FirstIsDeliverable(cfg: Config, key: Key, payload: Json)
    requires IsDaemonKind(key.kind) && Homeward(cfg.ids, key, payload) && key.id != ""
    ensures Deliverable(ServerRow(1, key, FirstEntity(cfg, key, payload)))
  {
    var server := ToServer(cfg.ids, key.kind, key.id, payload).value;
    StoredIsAddressed(key, Some(server));
    ColumnKeepsObjects(server);
    hide ToServer, ToLocal, Trim, NamedId, Column;
  }

  lemma {:induction false} FirstIsSendable(cfg: Config, key: Key, payload: Json)
    requires TakesMine(cfg, key, payload)
    ensures Sendable(cfg, LocalChange(key, Entity(1, payload, false)), 1)
  {
    hide ToServer, ContainsSecret;
  }

  // ---- rows that are refused ----

  /** A foreign push of a payload that is not an object, or of an entity type that the daemon does not list, passes the
      server's validation and makes a log row that the daemon refuses. */
  lemma {:induction false} RefusedRowIsReachable(cfg: Config, key: Key, payload: Json)
    requires Lenient(cfg.policy)
    requires (key == Key("memory", "m") && payload == Str("x")) || (key == Key("run", "r") && payload == Obj(map[]))
    ensures var steps := [ForeignPush(Creation(cfg, key, payload), 1)];
            WellFormedRun(cfg, steps) && !AllDeliverable(Run(cfg, INITIAL, steps))
            && !Ready(cfg, Run(cfg, INITIAL, steps))
  {
    hide Do, Run, ValidChange, Deliverable, Lenient, Trim, Pushable, AllSendable;
    var step := ForeignPush(Creation(cfg, key, payload), 1);
    assert [step] == [] + [step];
    RunOne(cfg, INITIAL, [], step);
    RunNothing(cfg);
    TrimmedWords();
    RowIsRefused(cfg, key, payload);
    ForeignCreated(cfg, INITIAL, key, payload);
    assert Run(cfg, INITIAL, [step]).server.log[0] == ServerRow(1, key, Foreign(payload));
  }

  lemma {:induction false} RunNothing(cfg: Config)
    ensures Run(cfg, INITIAL, []) == INITIAL
  {
  }

  lemma {:induction false} RowIsRefused(cfg: Config, key: Key, payload: Json)
    requires Lenient(cfg.policy)
    requires (key == Key("memory", "m") && payload == Str("x")) || (key == Key("run", "r") && payload == Obj(map[]))
    ensures ValidChange(cfg.policy, Creation(cfg, key, payload))
    ensures !Deliverable(ServerRow(1, key, Foreign(payload)))
  {
    assert Column(Str("x")) == Str("x") && Column(Obj(map[])) == Obj(map[]);
    hide Lenient, Trim, Column;
    NothingExceeds(cfg.policy, Creation(cfg, key, payload));
  }

  lemma {:induction false} NothingExceeds(policy: Policy, c: SyncChange)
    requires Lenient(policy)
    ensures !policy.exceeds(c)
  {
  }

  lemma {:induction false} TrimmedWords()
    ensures Trim("memory") == "memory" && Trim("m") == "m" && Trim("run") == "run" && Trim("r") == "r"
  {
  }
}
