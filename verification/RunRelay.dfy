/** The relay of a local daemon run: it polls the run record and then the events, while the daemon goes on writing. */
module RunRelay {
  import opened Outcomes

  datatype Kind =
    | Created | StateChanged | ApprovalRequested | ApprovalResolved | InputRequested | InputReceived
    | CheckpointCreated | ArtifactCreated | Completed | Failed | Warning | Other(name: string)

  datatype Event = Event(sequence: nat, kind: Kind, payload: string)

  /** What the relay does with an event. */
  datatype Action =
    | Forward(event: Event)
    | ForwardRecovered(sequence: nat, original: Kind)
    | RelayApproval(event: Event) | RelayInput(event: Event)
    | RelayCheckpoint(event: Event) | RelayArtifact(event: Event)

  /** `runs.events` returns at most this many events. */
  const EVENT_LIMIT: nat := 1000

  function Dispatch(event: Event, recovering: bool): seq<Action> {
    match event.kind
    case ApprovalRequested =>
      [if recovering then ForwardRecovered(event.sequence, event.kind) else RelayApproval(event)]
    case InputRequested => [if recovering then ForwardRecovered(event.sequence, event.kind) else RelayInput(event)]
    case CheckpointCreated => [RelayCheckpoint(event)]
    case ArtifactCreated => [RelayArtifact(event)]
    case Created | StateChanged | ApprovalResolved | InputReceived | Completed | Failed => []
    case _ => [Forward(event)]
  }

  function DispatchAll(events: seq<Event>, recovering: bool): seq<Action> {
    if events == [] then []
    else DispatchAll(events[..|events| - 1], recovering) + Dispatch(events[|events| - 1], recovering)
  }

  /** What the relay is to do with an event of each kind. */
  predicate ActsOn(event: Event, recovering: bool, action: Action) {
    match action
    case Forward(e) => e == event && (event.kind.Warning? || event.kind.Other?)
    case ForwardRecovered(sequence, original) =>
      && recovering && (event.kind.ApprovalRequested? || event.kind.InputRequested?)
      && sequence == event.sequence && original == event.kind
    case RelayApproval(e) => e == event && !recovering && event.kind.ApprovalRequested?
    case RelayInput(e) => e == event && !recovering && event.kind.InputRequested?
    case RelayCheckpoint(e) => e == event && event.kind.CheckpointCreated?
    case RelayArtifact(e) => e == event && event.kind.ArtifactCreated?
  }

  /** The kinds that stay local. */
  const LOCAL := {Created, StateChanged, ApprovalResolved, InputReceived, Completed, Failed}

  /** An event of any other kind leads to one action, and what it is to be decides which. */
  lemma {:induction false} DispatchMeans(event: Event, recovering: bool)
    ensures var actions := Dispatch(event, recovering);
            if event.kind in LOCAL then actions == [] else |actions| == 1 && ActsOn(event, recovering, actions[0])
    ensures forall action, other :: ActsOn(event, recovering, action) && ActsOn(event, recovering, other) ==>
                                      action == other
    ensures event.kind in LOCAL ==> forall action :: !ActsOn(event, recovering, action)
  {
  }

  /** The actions are those for all events that do not stay local, in order; `at` are the places of these events. */
  ghost predicate ActedOn(events: seq<Event>, recovering: bool, at: seq<nat>, actions: seq<Action>) {
    && |at| == |actions|
    && (forall a, b :: 0 <= a < b < |at| ==> at[a] < at[b])
    && (forall a :: 0 <= a < |at| ==> at[a] < |events| && ActsOn(events[at[a]], recovering, actions[a]))
    && forall i: nat :: i < |events| && events[i].kind !in LOCAL ==> i in at
  }

  lemma {:induction false} DispatchAllMeans(events: seq<Event>, recovering: bool) returns (at: seq<nat>)
    ensures ActedOn(events, recovering, at, DispatchAll(events, recovering))
  {
    at := [];
    if events != [] {
      var n := |events| - 1;
      at := DispatchAllMeans(events[..n], recovering);
      DispatchMeans(events[n], recovering);
      hide ActsOn, Dispatch, ActedOn;
      var more := Dispatch(events[n], recovering);
      OneMoreEvent(events[..n], recovering, at, DispatchAll(events[..n], recovering), events[n], more);
      assert events == events[..n] + [events[n]];
      at := at + if more == [] then [] else [n];
    }
  }

  lemma {:induction false} OneMoreEvent(events: seq<Event>, recovering: bool, at: seq<nat>, actions: seq<Action>,
                                        event: Event, more: seq<Action>)
    requires ActedOn(events, recovering, at, actions)
    requires if event.kind in LOCAL then more == [] else |more| == 1 && ActsOn(event, recovering, more[0])
    ensures ActedOn(events + [event], recovering, at + if more == [] then [] else [|events|], actions + more)
  {
    hide ActsOn;
    var events', at' := events + [event], at + if more == [] then [] else [|events|];
    assert events'[|events|] == event && forall i :: 0 <= i < |events| ==> events'[i] == events[i];
    forall i: nat | i < |events'| && events'[i].kind !in LOCAL
      ensures i in at'
    {
      if i < |events| {
        assert i in at;
      } else {
        assert at'[|at|] == i;
      }
    }
  }

  // The daemon

  function NextSequence(log: seq<Event>): (n: nat)
    ensures forall i :: 0 <= i < |log| ==> log[i].sequence < n
  {
    if log == [] then 1
    else
      var before := NextSequence(log[..|log| - 1]);
      if log[|log| - 1].sequence >= before then log[|log| - 1].sequence + 1 else before
  }

  function AppendEvent(log: seq<Event>, kind: Kind, payload: string): seq<Event> {
    log + [Event(NextSequence(log), kind, payload)]
  }

  function Later(log: seq<Event>, after: nat): seq<Event> {
    if log == [] then [] else (if log[0].sequence > after then [log[0]] else []) + Later(log[1..], after)
  }

  /** The first events after a sequence number, in order. */
  function ListEvents(log: seq<Event>, after: nat): seq<Event> {
    var later := Later(log, after);
    if |later| <= EVENT_LIMIT then later else later[..EVENT_LIMIT]
  }

  predicate Numbered(log: seq<Event>) {
    forall i :: 0 <= i < |log| ==> log[i].sequence == i + 1
  }

  lemma {:induction false} NextOfNumbered(log: seq<Event>)
    requires Numbered(log)
    ensures NextSequence(log) == |log| + 1
  {
    if log != [] {
      NextOfNumbered(log[..|log| - 1]);
    }
  }

  lemma {:induction false} LaterIsRest(log: seq<Event>, offset: nat, after: nat)
    requires forall i :: 0 <= i < |log| ==> log[i].sequence == offset + i + 1
    requires after <= offset + |log|
    ensures Later(log, after) == if after <= offset then log else log[after - offset..]
  {
    if log != [] {
      LaterIsRest(log[1..], offset + 1, if after == offset then offset + 1 else after);
      if after <= offset {
        AllLater(log[1..], after);
        assert log == [log[0]] + log[1..];
      } else {
        assert log[1..][after - (offset + 1)..] == log[after - offset..];
      }
    }
  }

  lemma {:induction false} AllLater(log: seq<Event>, after: nat)
    requires forall i :: 0 <= i < |log| ==> log[i].sequence > after
    ensures Later(log, after) == log
  {
    if log != [] {
      AllLater(log[1..], after);
      assert log == [log[0]] + log[1..];
    }
  }

  /** In a log numbered from one, the query is the stretch that follows the cursor. */
  lemma {:induction false} QueryIsStretch(log: seq<Event>, after: nat)
    requires Numbered(log) && after <= |log|
    ensures ListEvents(log, after) ==
              if |log| <= after + EVENT_LIMIT then log[after..] else log[after..after + EVENT_LIMIT]
  {
    LaterIsRest(log, 0, after);
    assert log[0..] == log;
  }

  // The relay

  /** The relay between its polls: its cursor, and every event it has processed, in the order it did. */
  class Relay {
    const recovering: bool
    var cursor: nat
    var processed: seq<Event>
    var actions: seq<Action>

    constructor (isRecovering: bool)
      ensures recovering == isRecovering && cursor == 0 && processed == [] && actions == []
    {
      recovering, cursor, processed, actions := isRecovering, 0, [], [];
    }

    /** One answer of `runs.events`. Relaying an event calls the control plane or the daemon, and the first call that
        fails ends the relay. */
    method Process(events: seq<Event>, fails: Event -> bool) returns (ok: bool)
      requires actions == DispatchAll(processed, recovering)
      modifies this
      ensures actions == DispatchAll(processed, recovering)
      ensures ok <==> forall i :: 0 <= i < |events| ==> events[i].kind in LOCAL || !fails(events[i])
      ensures ok ==> processed == old(processed) + events && cursor == Advanced(old(cursor), events)
      ensures !ok ==>
                var n := |processed| - |old(processed)|;
                && 0 <= n < |events| && processed == old(processed) + events[..n]
                && events[n].kind !in LOCAL && fails(events[n])
                && forall i :: 0 <= i < n ==> events[i].kind in LOCAL || !fails(events[i])
    {
      hide Dispatch, DispatchAll, Advanced, CallFails, ActsOn;
      NothingAdvances(cursor);
      assert events[..0] == [];
      for i := 0 to |events|
        invariant processed == old(processed) + events[..i] && actions == DispatchAll(processed, recovering)
        invariant cursor == Advanced(old(cursor), events[..i])
        invariant forall j :: 0 <= j < i ==> events[j].kind in LOCAL || !fails(events[j])
      {
        var event := events[i];
        assert events[..i + 1] == events[..i] + [event];
        DispatchOneMore(processed, event, recovering);
        AdvancedOneMore(old(cursor), events[..i], event);
        cursor := if event.sequence > cursor then event.sequence else cursor;
        CallFailsIff(event, recovering, fails);
        if CallFails(event, recovering, fails) {
          return false;
        }
        actions := actions + Dispatch(event, recovering);
        processed := processed + [event];
      }
      assert events[..|events|] == events;
      ok := true;
    }
  }

  /** The event is relayed by a call, and the call fails. */
  predicate CallFails(event: Event, recovering: bool, fails: Event -> bool) {
    Dispatch(event, recovering) != [] && fails(event)
  }

  lemma {:induction false} CallFailsIff(event: Event, recovering: bool, fails: Event -> bool)
    ensures CallFails(event, recovering, fails) <==> event.kind !in LOCAL && fails(event)
  {
    DispatchMeans(event, recovering);
  }

  lemma {:induction false} NothingAdvances(cursor: nat)
    ensures Advanced(cursor, []) == cursor
  {
  }

  lemma {:induction false} DispatchOneMore(events: seq<Event>, event: Event, recovering: bool)
    ensures DispatchAll(events + [event], recovering) == DispatchAll(events, recovering) + Dispatch(event, recovering)
  {
    assert (events + [event])[..|events|] == events;
  }

  lemma {:induction false} AdvancedOneMore(cursor: nat, events: seq<Event>, event: Event)
    ensures Advanced(cursor, events + [event])
         == if event.sequence > Advanced(cursor, events) then event.sequence else Advanced(cursor, events)
  {
    assert (events + [event])[..|events|] == events;
  }

  function Advanced(cursor: nat, events: seq<Event>): nat {
    if events == [] then cursor
    else
      var before := Advanced(cursor, events[..|events| - 1]);
      if events[|events| - 1].sequence > before then events[|events| - 1].sequence else before
  }

  lemma {:induction false} AdvancedOverStretch(log: seq<Event>, from: nat, end: nat)
    requires Numbered(log) && from <= end <= |log|
    ensures Advanced(from, log[from..end]) == end
    decreases end
  {
    if from < end {
      AdvancedOverStretch(log, from, end - 1);
      assert log[from..end][..end - from - 1] == log[from..end - 1];
    }
  }

  // Interleavings

  /** Where the relay stands: about to poll, between the record and its events, or returned. */
  datatype Phase = Polling | Recorded(terminal: bool) | Returned(cursorBefore: nat, seen: nat)

  datatype System = System(log: seq<Event>, terminal: bool, phase: Phase, cursor: nat, processed: seq<Event>)

  const INITIAL := System([], false, Polling, 0, [])

  /** A daemon write is one critical section: an event, or the last event together with the terminal record. */
  datatype Step = Write(kind: Kind, payload: string) | Finish(kind: Kind, payload: string) | ReadRecord | ReadEvents

  function Next(s: System, step: Step): System {
    match step
    case Write(kind, payload) => s.(log := AppendEvent(s.log, kind, payload))
    case Finish(kind, payload) =>
      if s.terminal then s else s.(log := AppendEvent(s.log, kind, payload), terminal := true)
    case ReadRecord => if s.phase.Polling? then s.(phase := Recorded(s.terminal)) else s
    case ReadEvents =>
      if !s.phase.Recorded? then s
      else
        var events := ListEvents(s.log, s.cursor);
        s.(cursor := Advanced(s.cursor, events), processed := s.processed + events,
           phase := if s.phase.terminal then Returned(s.cursor, |s.log|) else Polling)
  }

  function Run(steps: seq<Step>): System {
    if steps == [] then INITIAL else Next(Run(steps[..|steps| - 1]), steps[|steps| - 1])
  }

  /** No event is written after the terminal record. */
  predicate Sealed(steps: seq<Step>) {
    forall i, j :: 0 <= i < j < |steps| && steps[i].Finish? ==> !steps[j].Write?
  }

  predicate Sound(s: System) {
    && Numbered(s.log)
    && s.cursor <= |s.log| && s.processed == s.log[..s.cursor]
    && (s.phase.Recorded? && s.phase.terminal ==> s.terminal)
    && (s.phase.Returned? ==>
          && s.terminal && s.phase.cursorBefore <= s.phase.seen <= |s.log|
          && s.cursor ==
             if s.phase.seen <= s.phase.cursorBefore + EVENT_LIMIT then s.phase.seen
             else s.phase.cursorBefore + EVENT_LIMIT)
  }

  lemma {:induction false} NextIsSound(s: System, step: Step)
    requires Sound(s)
    ensures Sound(Next(s, step))
  {
    hide ListEvents, Advanced, NextSequence;
    NextOfNumbered(s.log);
    match step
    case Write(_, _) =>
    case Finish(_, _) =>
    case ReadRecord =>
    case ReadEvents =>
      if s.phase.Recorded? {
        QueryIsStretch(s.log, s.cursor);
        var to := if |s.log| <= s.cursor + EVENT_LIMIT then |s.log| else s.cursor + EVENT_LIMIT;
        assert ListEvents(s.log, s.cursor) == s.log[s.cursor..to];
        AdvancedOverStretch(s.log, s.cursor, to);
        assert s.log[..s.cursor] + s.log[s.cursor..to] == s.log[..to];
      }
  }

  /** In every interleaving the relay has processed exactly the first `cursor` events, each once and in order. */
  lemma {:induction false} ProcessedIsPrefix(steps: seq<Step>)
    ensures Sound(Run(steps))
  {
    hide Sound;
    if steps != [] {
      ProcessedIsPrefix(steps[..|steps| - 1]);
      NextIsSound(Run(steps[..|steps| - 1]), steps[|steps| - 1]);
    } else {
      InitialIsSound();
    }
  }

  lemma {:induction false} InitialIsSound()
    ensures Sound(INITIAL)
  {
  }

  lemma {:induction false} FinishedBefore(steps: seq<Step>)
    requires Run(steps).terminal
    ensures exists i :: 0 <= i < |steps| && steps[i].Finish?
  {
    if steps != [] && !steps[|steps| - 1].Finish? {
      FinishedBefore(steps[..|steps| - 1]);
      var i :| 0 <= i < |steps| - 1 && steps[..|steps| - 1][i].Finish?;
      assert steps[i].Finish?;
    }
  }

  /** Once the relay has returned, a sealed daemon adds nothing to what it saw. */
  lemma {:induction false} SealedLogStays(steps: seq<Step>)
    requires Sealed(steps) && Run(steps).phase.Returned?
    ensures |Run(steps).log| == Run(steps).phase.seen
  {
    var n := |steps| - 1;
    var s := Run(steps[..n]);
    assert Sealed(steps[..n]);
    ProcessedIsPrefix(steps[..n]);
    if s.phase.Returned? {
      SealedLogStays(steps[..n]);
      FinishedBefore(steps[..n]);
      var i :| 0 <= i < n && steps[..n][i].Finish?;
      assert steps[i].Finish? && !steps[n].Write?;
    }
  }

  /** A relay that returned has processed every event exactly when its last query could return all that was left, and
      nothing was written afterwards. */
  lemma {:induction false} CompleteIff(steps: seq<Step>)
    requires Run(steps).phase.Returned?
    ensures var s := Run(steps);
            s.processed == s.log <==> |s.log| == s.phase.seen && s.phase.seen <= s.phase.cursorBefore + EVENT_LIMIT
  {
    hide Run;
    ProcessedIsPrefix(steps);
  }

  /** With a daemon that writes every event before its terminal record, the only thing that can be lost is what exceeds
      the limit of the last query. */
  lemma {:induction false} SealedCompleteIff(steps: seq<Step>)
    requires Sealed(steps) && Run(steps).phase.Returned?
    ensures var s := Run(steps); s.processed == s.log <==> |s.log| <= s.phase.cursorBefore + EVENT_LIMIT
  {
    hide Run, Sealed;
    CompleteIff(steps);
    SealedLogStays(steps);
  }

  /** The run is over before its record is read for the first time, as when it is recovered. */
  predicate OverBeforeRead(steps: seq<Step>) {
    forall i :: 0 <= i < |steps| && steps[i].ReadRecord? ==> FinishedBy(steps, i)
  }

  predicate FinishedBy(steps: seq<Step>, i: nat)
    requires i <= |steps|
  {
    exists j :: 0 <= j < i && steps[j].Finish?
  }

  lemma {:induction false} FinishedIsTerminal(steps: seq<Step>)
    requires FinishedBy(steps, |steps|)
    ensures Run(steps).terminal
  {
    var j :| 0 <= j < |steps| && steps[j].Finish?;
    if j < |steps| - 1 {
      assert steps[..|steps| - 1][j].Finish?;
      FinishedIsTerminal(steps[..|steps| - 1]);
    }
  }

  /** Such a relay reads a terminal record first, and so returns with its first query. */
  lemma {:induction false} ReturnsWithFirstQuery(steps: seq<Step>)
    requires OverBeforeRead(steps)
    ensures var s := Run(steps);
            && (s.phase.Recorded? ==> s.phase.terminal) && (!s.phase.Returned? ==> s.cursor == 0)
            && (s.phase.Returned? ==> s.phase.cursorBefore == 0)
  {
    hide ListEvents, Advanced, NextSequence;
    if steps != [] {
      var n := |steps| - 1;
      forall i | 0 <= i < n && steps[..n][i].ReadRecord?
        ensures FinishedBy(steps[..n], i)
      {
        assert steps[i].ReadRecord?;
        var j :| 0 <= j < i && steps[j].Finish?;
        assert steps[..n][j].Finish?;
      }
      ReturnsWithFirstQuery(steps[..n]);
      if steps[n].ReadRecord? {
        var j :| 0 <= j < n && steps[j].Finish?;
        assert steps[..n][j].Finish?;
        FinishedIsTerminal(steps[..n]);
      }
    }
  }

  /** A run that ended before the relay started is relayed completely if and only if it has no more events than one
      query returns, in every interleaving. */
  lemma {:induction false} RecoveredCompleteIff(steps: seq<Step>)
    requires Sealed(steps) && OverBeforeRead(steps) && Run(steps).phase.Returned?
    ensures Run(steps).processed == Run(steps).log <==> |Run(steps).log| <= EVENT_LIMIT
  {
    hide Run, Sealed, OverBeforeRead;
    SealedCompleteIff(steps);
    ReturnsWithFirstQuery(steps);
  }

  /** `n` events and the last one, and then the relay. */
  function RecoveredRun(n: nat): (steps: seq<Step>) {
    seq(n, i => Write(Warning, "")) + [Finish(Completed, ""), ReadRecord, ReadEvents]
  }

  lemma {:induction false} OnlyWrites(n: nat)
    ensures var s := Run(seq(n, i => Write(Warning, "")));
            |s.log| == n && !s.terminal && s.phase == Polling && s.cursor == 0
  {
    if n > 0 {
      OnlyWrites(n - 1);
      var steps: seq<Step> := seq(n, i => Write(Warning, ""));
      assert steps[..n - 1] == seq(n - 1, i => Write(Warning, ""));
    }
  }

  lemma {:induction false} RecoveredRunReturns(n: nat)
    ensures var s := Run(RecoveredRun(n)); s.phase.Returned? && |s.log| == n + 1
    ensures Sealed(RecoveredRun(n)) && OverBeforeRead(RecoveredRun(n))
  {
    hide ListEvents, Advanced, NextSequence, Sound;
    var steps := RecoveredRun(n);
    OnlyWrites(n);
    assert steps[..n + 2][..n + 1] == steps[..n + 1] && steps[..n + 1][..n] == steps[..n];
    assert steps[..n + 2] == steps[..|steps| - 1];
    assert steps[..n] == seq(n, i => Write(Warning, ""));
    assert Run(steps[..n + 1]) == Next(Run(steps[..n]), Finish(Completed, ""));
    assert Run(steps[..n + 2]) == Next(Run(steps[..n + 1]), ReadRecord);
    assert Run(steps) == Next(Run(steps[..n + 2]), ReadEvents);
    assert steps[n].Finish? && FinishedBy(steps, n + 1);
  }

  /** With 1001 events the relay returns without having processed the last one. */
  lemma {:induction false} LongRunLosesEvents()
    ensures Run(RecoveredRun(1000)).phase.Returned? && Run(RecoveredRun(1000)).processed != Run(RecoveredRun(1000)).log
  {
    hide Run, Sealed, OverBeforeRead;
    RecoveredRunReturns(1000);
    RecoveredCompleteIff(RecoveredRun(1000));
  }
}
