/** Whole runs of the audit log, with rotations that may stop half way. */
module AuditRuns {
  import opened Machine
  import opened Outcomes
  import opened AuditChain
  import opened AuditFiles

  /** An append, whether or not its flush succeeds; an append that stops before it writes its line, perhaps after some
      moves of its rotation and perhaps after it has created the active file; or an append that stops after some
      characters of its line. */
  datatype Event =
    | Append(payload: Payload)
    | Stopped(moves: Option<nat>, created: bool)
    | Cut(payload: Payload, written: nat)

  /** An append to a log that does not verify changes nothing. */
  function After(c: Config, files: Slots, event: Event): Slots {
    match event
    case Append(payload) => if Appended(c, files, payload).Ok? then Appended(c, files, payload).value else files
    case Stopped(moves, created) =>
      var complete := moves.Some? && moves.value <= c.maxArchives;
      var rotated := if complete then Shifted(files, c.maxArchives, moves.value) else files;
      if !Permitted(c, files) then files else if created then Opened(rotated) else rotated
    case Cut(payload, written) =>
      if Appended(c, files, payload).Ok? && written <= |NewLine(c, files, payload)| + 1 then
        var line := NewLine(c, files, payload);
        Torn(Rotated(c, files, c.bytes(line) + 1), line, written)
      else files
  }

  function Run(c: Config, files: Slots, events: seq<Event>): Slots {
    if events == [] then files else After(c, Run(c, files, events[..|events| - 1]), events[|events| - 1])
  }

  /** The event leaves a part of a line. */
  predicate Tears(c: Config, files: Slots, event: Event) {
    && event.Cut? && Appended(c, files, event.payload).Ok?
    && 0 < event.written <= |NewLine(c, files, event.payload)|
  }

  lemma {:induction false} EventVerifiesIff(c: Config, files: Slots, event: Event)
    requires Faithful(c.scheme)
    ensures Permitted(c, files) ==> (Permitted(c, After(c, files, event)) <==> !Tears(c, files, event))
    ensures !Permitted(c, files) ==> After(c, files, event) == files && !Tears(c, files, event)
  {
    hide Faithful, Shifted, Opened, Torn, Retained, CheckFiles, NextRecord, Rotated, Written;
    if !Permitted(c, files) {
      RefusesAppends(c, files);
    } else {
      match event
      case Append(payload) =>
        if Appended(c, files, payload).Ok? {
          AppendVerifies(c, files, payload);
        }
      case Stopped(moves, created) => LeftBehindVerifies(c, files, After(c, files, event));
      case Cut(payload, written) =>
        if Appended(c, files, payload).Ok? && written <= |NewLine(c, files, payload)| + 1 {
          TornVerifiesIff(c, files, payload, written);
        }
    }
  }

  lemma {:induction false} RefusesAppends(c: Config, files: Slots)
    requires !Permitted(c, files)
    ensures forall payload :: Appended(c, files, payload) == Err(IntegrityFailed)
  {
    hide Retained, CheckFiles;
  }

  /** Whatever is appended, rotated and interrupted, a log that verifies goes on verifying, if and only if no append
      ever stops inside its line. */
  lemma {:induction false} RunVerifiesIff(c: Config, files: Slots, events: seq<Event>)
    requires Faithful(c.scheme) && Permitted(c, files)
    ensures Permitted(c, Run(c, files, events)) <==>
              forall i :: 0 <= i < |events| ==> !Tears(c, Run(c, files, events[..i]), events[i])
  {
    hide Permitted, Faithful, After, Tears;
    if events != [] {
      var n := |events| - 1;
      RunVerifiesIff(c, files, events[..n]);
      EventVerifiesIff(c, Run(c, files, events[..n]), events[n]);
      assert forall i :: 0 <= i < n ==> events[..n][..i] == events[..i] && events[..n][i] == events[i];
    }
  }

  function Appends(payloads: seq<Payload>): (events: seq<Event>)
    ensures |events| == |payloads|
  {
    seq(|payloads|, i requires 0 <= i < |payloads| => Append(payloads[i]))
  }

  predicate AllSucceed(c: Config, files: Slots, payloads: seq<Payload>) {
    forall i :: 0 <= i < |payloads| ==> Appended(c, Run(c, files, Appends(payloads[..i])), payloads[i]).Ok?
  }

  function LastSequence(c: Config, files: Slots): nat {
    var v := CheckFiles(c.scheme, Retained(files, c.maxArchives));
    if v.Accepted? && v.last.Some? then v.last.value else 0
  }

  /** `n` successful appends raise the last sequence number by exactly `n`, whatever was rotated in between, and the
      signed records still retained are numbered without a gap. */
  lemma {:induction false} RunCounts(c: Config, files: Slots, payloads: seq<Payload>)
    requires Faithful(c.scheme) && Permitted(c, files) && AllSucceed(c, files, payloads)
    ensures LastSequence(c, Run(c, files, Appends(payloads))) == LastSequence(c, files) + |payloads|
    ensures var v := CheckFiles(c.scheme, Retained(Run(c, files, Appends(payloads)), c.maxArchives));
            v.Accepted? && (v.signed > 0 ==>
                              v.last.Some? && v.first.Some? && v.last.value - v.first.value + 1 == v.signed)
  {
    hide Faithful, Appended, Shifted, CheckFiles, Retained;
    if payloads == [] {
      Retains(c, files);
    } else {
      var n := |payloads| - 1;
      Prefixes(c, files, payloads, n);
      RunCounts(c, files, payloads[..n]);
      assert Appends(payloads)[..n] == Appends(payloads[..n]);
      AppendVerifies(c, Run(c, files, Appends(payloads[..n])), payloads[n]);
    }
  }

  lemma {:induction false} Prefixes(c: Config, files: Slots, payloads: seq<Payload>, n: nat)
    requires n <= |payloads| && AllSucceed(c, files, payloads)
    ensures AllSucceed(c, files, payloads[..n])
  {
    hide Appended, Run, Appends;
    forall i | 0 <= i < n
      ensures Appended(c, Run(c, files, Appends(payloads[..n][..i])), payloads[..n][i]).Ok?
    {
      assert payloads[..n][..i] == payloads[..i];
    }
  }

  lemma {:induction false} Retains(c: Config, files: Slots)
    requires Permitted(c, files)
    ensures var v := CheckFiles(c.scheme, Retained(files, c.maxArchives));
            v.Accepted? && (v.signed > 0 ==>
                              v.last.Some? && v.first.Some? && v.last.value - v.first.value + 1 == v.signed)
  {
    hide CheckFiles, Retained, GoodLog, AllLines, AllReadable;
    PermitsExactlyGoodLogs(c.scheme, Retained(files, c.maxArchives));
  }
}
