/** The pages of a cycle: how many the agent pushes and pulls before it rests. */
module SyncCycles {
  import opened Outcomes
  import opened SyncTypes
  import opened SyncStore
  import opened SyncServer
  import opened SyncSystem

  /** The pages fetched since the last cycle began: of the outbox, and of the server's log. */
  datatype Pages = Pages(pushed: nat, pulled: nat)

  function Fetched(cfg: Config, steps: seq<Step>): Pages {
    if steps == [] then Pages(0, 0)
    else
      var n := |steps| - 1;
      var pages := Fetched(cfg, steps[..n]);
      var before, after := Run(cfg, INITIAL, steps[..n]).agent, Run(cfg, INITIAL, steps).agent;
      if before.Idle? && after.NextPush? then Pages(0, 0)
      else if before.NextPush? && after.Sending? then pages.(pushed := pages.pushed + 1)
      else if before.NextPull? && after.Applying? then pages.(pulled := pages.pulled + 1)
      else pages
  }

  predicate Counts(agent: Agent, pages: Pages) {
    && pages.pushed <= 5 && pages.pulled <= 5
    && match agent
       case Idle => true
       case NextPush(round) => round == pages.pushed && pages.pulled == 0
       case Sending(b) => b.round + 1 == pages.pushed && pages.pulled == 0
       case Settling(b, _, _) => b.round + 1 == pages.pushed && pages.pulled == 0
       case NextPull(round) => round == pages.pulled
       case Applying(round, _, _) => round + 1 == pages.pulled
  }

  /** In every run a cycle fetches at most five pages of each kind, and the agent's rounds count them. */
  lemma {:induction false} AtMostFivePages(cfg: Config, steps: seq<Step>)
    ensures Counts(Run(cfg, INITIAL, steps).agent, Fetched(cfg, steps))
  {
    if steps != [] {
      var n := |steps| - 1;
      AtMostFivePages(cfg, steps[..n]);
      var s := Run(cfg, INITIAL, steps[..n]);
      AgentMoves(cfg, s, steps[n]);
      hide Do;
    }
  }

  /** How the agent moves on from its place. */
  ghost predicate Moves(cfg: Config, s: System, step: Step, t: System) {
    match s.agent
    case Idle => t.agent == Idle || t.agent == NextPush(0)
    case NextPush(round) =>
      || t.agent == s.agent || t.agent.Idle?
      || (round < 5 && t.agent.Sending? && t.agent.batch.round == round)
      || t.agent == NextPull(0)
    case Sending(b) =>
      || t.agent.Idle? || (t.agent.Sending? && t.agent.batch.round == b.round)
      || (t.agent.Settling? && t.agent.batch.round == b.round)
    case Settling(b, _, _) =>
      || t.agent.Idle? || (t.agent.Settling? && t.agent.batch.round == b.round)
      || t.agent == NextPull(0) || t.agent == NextPush(b.round + 1)
    case NextPull(round) =>
      t.agent == s.agent || t.agent.Idle? || (round < 5 && t.agent.Applying? && t.agent.round == round)
    case Applying(round, _, _) =>
      t.agent.Idle? || (t.agent.Applying? && t.agent.round == round) || t.agent == NextPull(round + 1)
  }

  lemma {:induction false} AgentMoves(cfg: Config, s: System, step: Step)
    ensures Moves(cfg, s, step, Do(cfg, s, step))
  {
    hide ChangeForServer, ApplyChange, Publish, PublishTombstone, ApplyRemote, Acknowledge, Pull, Resolve, WriteEntity,
         TombstoneEntity, Acceptable, RemoteOf, PageSendable, FreshCursor, ValidChange;
  }

  /** A page of the outbox is fetched exactly while fewer than five were and something is not acknowledged. */
  lemma {:induction false} PushesIff(cfg: Config, steps: seq<Step>)
    requires Run(cfg, INITIAL, steps).agent.NextPush?
    ensures var s := Run(cfg, INITIAL, steps); var t := Do(cfg, s, FetchOutbox);
            && (t.agent.Sending? <==>
                  Fetched(cfg, steps).pushed < 5 && PeerOf(s.store, cfg.peer).localCursor < |s.store.outbox|)
            && (!t.agent.Sending? ==> t.agent == NextPull(0))
  {
    hide Run, Fetched;
    AtMostFivePages(cfg, steps);
  }

  /** A page of the log is fetched exactly while fewer than five were and the server has a newer row. */
  lemma {:induction false} PullsIff(cfg: Config, steps: seq<Step>)
    requires Run(cfg, INITIAL, steps).agent.NextPull?
    ensures var s := Run(cfg, INITIAL, steps); var t := Do(cfg, s, FetchRemote);
            && (t.agent.Applying? <==>
                  Fetched(cfg, steps).pulled < 5 && Pull(s.server, PeerOf(s.store, cfg.peer).remoteCursor) != [])
            && (!t.agent.Applying? ==> t.agent.Idle?)
  {
    hide Run, Fetched, Pull;
    AtMostFivePages(cfg, steps);
  }

  /** A page that is done is followed by another one exactly if it was full. */
  lemma {:induction false} FullPageGoesOn(cfg: Config, s: System)
    ensures s.agent.Settling? && MustAck(s.agent) && s.agent.next + 1 == |s.agent.batch.page| ==>
              var next := Do(cfg, s, AckNext).agent;
              if |s.agent.batch.page| < 100 then next == NextPull(0) else next == NextPush(s.agent.batch.round + 1)
    ensures s.agent.Applying? && s.agent.done + 1 == |s.agent.rows| ==>
              var row := s.agent.rows[s.agent.done];
              var next := Do(cfg, s, ApplyNext).agent;
              if !Acceptable(row.key, row.entity) || |s.agent.rows| < 100 then next == Idle
              else next == NextPull(s.agent.round + 1)
  {
    hide ApplyRemote, Acknowledge, Acceptable, RemoteOf;
  }
}
