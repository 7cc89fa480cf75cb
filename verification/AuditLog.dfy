/** The audit log as the service keeps it: a directory of files that it verifies, rotates and appends to in place. */
module AuditLog {
  import opened Machine
  import opened Outcomes
  import opened AuditChain
  import opened AuditFiles
  import opened TextLines

  datatype Status = Empty | Intact | LegacyLog | Tampered | Unavailable

  datatype Report = Report(verdict: Verdict, filesChecked: nat, activeLines: seq<string>)

  function StatusOf(v: Verdict): Status {
    if v.Refused? then if v.code == "audit_file_unreadable" then Unavailable else Tampered
    else if v.signed == 0 && v.legacy == 0 then Empty
    else if v.legacy > 0 then LegacyLog
    else Intact
  }

  predicate ChainComplete(v: Verdict) {
    v.Accepted? && v.legacy == 0 && (v.first.Some? ==> v.first.value == 1)
  }

  /** A log is reported intact and complete exactly when it is all genuine records, numbered from one upwards. */
  lemma {:induction false} IntactMeans(s: Scheme, lines: seq<string>)
    ensures StatusOf(Check(s, lines)) == Intact && ChainComplete(Check(s, lines)) <==>
            && lines != [] && GoodLog(s, lines)
            && forall i :: 0 <= i < |lines| ==> Genuine(s, lines[i]) && RecordOf(s, lines[i]).body.sequence == i + 1
  {
    hide Genuine, LegacyLine;
    AcceptsExactlyGoodLogs(s, lines);
    var v := Check(s, lines);
    if v.Accepted? && v.legacy == 0 && v.signed > 0 && v.first == Some(1) {
      Numbered(s, lines);
    }
    if lines != [] && v.Accepted? && Genuine(s, lines[0]) {
      NotBoth(s, lines[0]);
    }
  }

  /** A file that cannot be read, behind files that verify. */
  ghost predicate StopsUnread(s: Scheme, files: seq<Content>) {
    exists i :: 0 <= i < |files| && files[i].Unreadable?
                && AllReadable(files[..i]) && GoodLog(s, AllLines(files[..i]))
  }

  /** The status of a log in every case: unavailable if verification meets a file it cannot read, tampered if it meets
      anything else that is wrong, and otherwise empty, legacy or intact by the lines there are. A log is complete if it
      has no legacy line and does not start behind sequence one. */
  lemma {:induction false} StatusMeans(s: Scheme, files: seq<Content>)
    ensures var v := CheckFiles(s, files); var good := AllReadable(files) && GoodLog(s, AllLines(files));
            && (StatusOf(v) == Unavailable <==> StopsUnread(s, files))
            && (StatusOf(v) == Tampered <==> !good && !StopsUnread(s, files))
            && (StatusOf(v) == Empty <==> good && AllLines(files) == [])
            && (StatusOf(v) == LegacyLog <==> good && exists line :: line in AllLines(files) && LegacyLine(s, line))
            && (StatusOf(v) == Intact <==>
                  good && AllLines(files) != [] && forall line :: line in AllLines(files) ==> Genuine(s, line))
            && (ChainComplete(v) <==>
                  && good && (forall line :: line in AllLines(files) ==> Genuine(s, line))
                  && (AllLines(files) != [] ==> RecordOf(s, AllLines(files)[0]).body.sequence == 1))
  {
    hide CheckFiles, GoodLog, AllReadable, AllLines, Genuine, LegacyLine, StopsUnread;
    PermitsExactlyGoodLogs(s, files);
    UnreadIff(s, files);
    if CheckFiles(s, files).Accepted? {
      TalliedMeans(s, AllLines(files), CheckFiles(s, files));
    }
  }

  lemma {:induction false} TalliedMeans(s: Scheme, lines: seq<string>, v: Verdict)
    requires Tallied(s, lines, v)
    ensures v.legacy > 0 <==> exists line :: line in lines && LegacyLine(s, line)
    ensures v.legacy == 0 <==> forall line :: line in lines ==> Genuine(s, line)
    ensures v.signed == 0 && v.legacy == 0 <==> lines == []
    ensures v.legacy == 0 && lines != [] ==>
              Genuine(s, lines[0]) && v.first == Some(RecordOf(s, lines[0]).body.sequence)
    ensures lines == [] ==> v.first.None?
  {
    hide Genuine, LegacyLine;
    if v.legacy > 0 {
      assert lines[0] in lines && LegacyLine(s, lines[0]);
      NotBoth(s, lines[0]);
    }
    forall line | line in lines && v.legacy == 0
      ensures Genuine(s, line) && !LegacyLine(s, line)
    {
      var i :| 0 <= i < |lines| && lines[i] == line;
      NotBoth(s, line);
    }
  }

  /** Verification reports a file as unreadable exactly when it gets as far as one. */
  lemma {:induction false} UnreadIff(s: Scheme, files: seq<Content>)
    ensures CheckFiles(s, files) == Refused("audit_file_unreadable") <==> StopsUnread(s, files)
  {
    hide GoodLog, AllReadable, AllLines, Lines, Whole, Step;
    if files == [] {
      assert !StopsUnread(s, files);
    } else {
      var n := |files| - 1;
      var before := files[..n];
      UnreadIff(s, before);
      PermitsExactlyGoodLogs(s, before);
      forall i | 0 <= i < n
        ensures files[..i] == before[..i] && files[i] == before[i]
      {
      }
      assert StopsUnread(s, files) <==>
        StopsUnread(s, before) || (files[n].Unreadable? && AllReadable(before) && GoodLog(s, AllLines(before)));
      if CheckFiles(s, before).Accepted? && files[n].Text? {
        LinesAreRead(s, CheckFiles(s, before), Lines(files[n].text));
      }
      if StopsUnread(s, before) {
        assert CheckFiles(s, before).Refused?;
      }
    }
  }

  /** No line makes verification report an unreadable file. */
  lemma {:induction false} LinesAreRead(s: Scheme, v: Verdict, lines: seq<string>)
    requires v != Refused("audit_file_unreadable")
    ensures CheckFrom(s, v, lines) != Refused("audit_file_unreadable")
  {
    if lines != [] {
      LinesAreRead(s, v, lines[..|lines| - 1]);
      LineIsRead(s, CheckFrom(s, v, lines[..|lines| - 1]), lines[|lines| - 1]);
    }
    hide Step;
  }

  lemma {:induction false} LineIsRead(s: Scheme, v: Verdict, line: string)
    requires v != Refused("audit_file_unreadable")
    ensures Step(s, v, line) != Refused("audit_file_unreadable")
  {
    hide DecodeMac, Anchored;
    assert forall code: string :: code == "audit_file_unreadable" ==> |code| == 21 && code[6] == 'f';
  }

  lemma {:induction false} Numbered(s: Scheme, lines: seq<string>)
    requires lines != [] && GoodLog(s, lines) && FullySigned(s, lines) && RecordOf(s, lines[0]).body.sequence == 1
    ensures forall i :: 0 <= i < |lines| ==> RecordOf(s, lines[i]).body.sequence == i + 1
  {
    hide Genuine, LegacyLine;
    var n := |lines| - 1;
    if n > 0 {
      assert lines[..n] == lines[0..n];
      StretchIsGood(s, lines, 0, n);
      Numbered(s, lines[..n]);
      assert lines[..n][n - 1] == lines[n - 1];
      assert Linked(RecordOf(s, lines[n - 1]), RecordOf(s, lines[n]));
      assert forall i :: 0 <= i < n ==> lines[..n][i] == lines[i];
    }
  }

  function Contents(files: Slots, slots: seq<nat>): (contents: seq<Content>)
    requires forall i :: 0 <= i < |slots| ==> slots[i] in files
  {
    seq(|slots|, i requires 0 <= i < |slots| => files[slots[i]])
  }

  lemma {:induction false} OneMoreSlot(files: Slots, slots: seq<nat>, index: nat)
    requires forall i :: 0 <= i < |slots| ==> slots[i] in files
    ensures var more := if index in files then slots + [index] else slots;
            && (forall i :: 0 <= i < |more| ==> more[i] in files)
            && Contents(files, slots) + Retained(files, index)
            == Contents(files, more) + if index == 0 then [] else Retained(files, index - 1)
  {
    var more := if index in files then slots + [index] else slots;
    assert Contents(files, more) == Contents(files, slots) + InSlot(files, index);
  }

  class Log {
    const config: Config
    /** Whether the n-th change to the directory fails, and how many characters it has written then. */
    const fails: nat -> bool
    const tears: nat -> nat
    var files: Slots
    var attempts: nat
    /** Every state the directory has been in since the log was opened. */
    ghost var states: seq<Slots>

    constructor (c: Config, faults: nat -> bool, partial: nat -> nat, existing: Slots)
      ensures config == c && fails == faults && tears == partial && files == existing && states == [existing]
    {
      config, fails, tears := c, faults, partial;
      files, attempts := existing, 0;
      states := [existing];
    }

    /** The retained slots, oldest first. */
    method RetainedPaths() returns (slots: seq<nat>)
      ensures forall i :: 0 <= i < |slots| ==> slots[i] in files && slots[i] <= config.maxArchives
      ensures Contents(files, slots) == Retained(files, config.maxArchives)
      ensures forall i :: 0 <= i < |slots| ==> (slots[i] == 0 ==> i == |slots| - 1)
      ensures 0 in files <==> |slots| > 0 && slots[|slots| - 1] == 0
    {
      slots := [];
      var index: nat := config.maxArchives;
      while index > 0
        invariant index <= config.maxArchives
        invariant forall i :: 0 <= i < |slots| ==> slots[i] in files && 0 < slots[i] <= config.maxArchives
        invariant Contents(files, slots) + Retained(files, index) == Retained(files, config.maxArchives)
      {
        OneMoreSlot(files, slots, index);
        if index in files {
          slots := slots + [index];
        }
        index := index - 1;
        hide Contents, Retained;
      }
      OneMoreSlot(files, slots, 0);
      if 0 in files {
        slots := slots + [0];
      }
    }

    /** Verification: the verdict over all retained files, how many were opened, and the lines of the active one. */
    method VerifyChain() returns (r: Report)
      ensures r.verdict == CheckFiles(config.scheme, Retained(files, config.maxArchives))
      ensures r.filesChecked <= |Retained(files, config.maxArchives)|
      ensures r.verdict.Accepted? ==> r.filesChecked == |Retained(files, config.maxArchives)|
      ensures r.verdict.Refused? ==>
                && r.filesChecked > 0 && r.activeLines == []
                && CheckFiles(config.scheme, Retained(files, config.maxArchives)[..r.filesChecked]).Refused?
                && CheckFiles(config.scheme, Retained(files, config.maxArchives)[..r.filesChecked - 1]).Accepted?
      ensures r.verdict.Accepted? ==> r.activeLines == if 0 in files && files[0].Text? then Lines(files[0].text) else []
    {
      hide Retained, Step, Lines, Whole;
      var slots := RetainedPaths();
      ghost var contents := Contents(files, slots);
      var verdict := START;
      var active: seq<string> := [];
      for i := 0 to |slots|
        invariant verdict.Accepted? && verdict == CheckFiles(config.scheme, contents[..i])
        invariant i < |slots| ==> active == []
        invariant i == |slots| ==> active == if 0 in files && files[0].Text? then Lines(files[0].text) else []
      {
        var content := files[slots[i]];
        assert contents[i] == content && contents[..i + 1][..i] == contents[..i];
        ghost var result := CheckFile(config.scheme, verdict, content);
        if content.Unreadable? {
          verdict := Refused("audit_file_unreadable");
        } else if content.Binary? || !Whole(content.text) {
          var whole := content.Binary? && content.newline;
          verdict := Refused(if whole then "audit_invalid_encoding" else "audit_truncated_record");
        } else {
          if slots[i] == 0 {
            active := Lines(content.text);
          }
          verdict := VerifyLines(verdict, Lines(content.text));
        }
        assert verdict == result;
        if verdict.Refused? {
          RefusedRest(config.scheme, contents, i + 1);
          return Report(verdict, i + 1, []);
        }
      }
      assert contents[..|slots|] == contents;
      r := Report(verdict, |slots|, active);
    }

    /** The lines of one file, in order, up to the first that is refused. */
    method VerifyLines(before: Verdict, lines: seq<string>) returns (v: Verdict)
      requires before.Accepted?
      ensures v == CheckFrom(config.scheme, before, lines)
    {
      hide Step;
      v := before;
      for i := 0 to |lines|
        invariant v.Accepted? && v == CheckFrom(config.scheme, before, lines[..i])
      {
        assert lines[..i + 1][..i] == lines[..i];
        v := Step(config.scheme, v, lines[i]);
        if v.Refused? {
          RefusedLines(config.scheme, before, lines, i + 1);
          return;
        }
      }
      assert lines[..|lines|] == lines;
    }

    method Rename(from: nat, to: nat) returns (ok: bool)
      requires from in files && to !in files
      modifies this
      ensures (forall n :: !fails(n)) ==> ok
      ensures ok ==> files == Move(old(files), from, to) && states == old(states) + [files]
      ensures !ok ==> files == old(files) && states == old(states)
    {
      ok := !fails(attempts);
      attempts := attempts + 1;
      if ok {
        files := (files - {from})[to := files[from]];
        states := states + [files];
      }
    }

    method Remove(slot: nat) returns (ok: bool)
      requires slot in files
      modifies this
      ensures (forall n :: !fails(n)) ==> ok
      ensures ok ==> files == old(files) - {slot} && states == old(states) + [files]
      ensures !ok ==> files == old(files) && states == old(states)
    {
      ok := !fails(attempts);
      attempts := attempts + 1;
      if ok {
        files := files - {slot};
        states := states + [files];
      }
    }

    /** Rotation. No rename lands on an existing file, and every state on the way retains what was retained before
        without the oldest archive, in the same order. A failing step leaves the rotation where it was. */
    method RotateIfNeeded(incoming: nat) returns (ok: bool)
      modifies this
      ensures (forall n :: !fails(n)) ==> ok
      ensures ok ==> files == Rotated(config, old(files), incoming)
      ensures !ok ==> files == old(files) || InRotation(config.maxArchives, old(files), files)
      ensures old(states) <= states
      ensures forall i :: |old(states)| <= i < |states| ==>
                && InRotation(config.maxArchives, old(files), states[i])
                && Retained(states[i], config.maxArchives) ==
                     Retained(old(files) - {config.maxArchives}, config.maxArchives)
    {
      hide Retained;
      ok := true;
      if !(0 in files && ByteSize(config, files[0]) + incoming > config.maxFileBytes) {
        return;
      }
      ghost var was := files;
      var m := config.maxArchives;
      if m == 0 {
        assert was - {0} == Shifted(was, 0, 0);
        ok := Remove(0);
        return;
      }
      if m in files {
        ok := Remove(m);
        if !ok {
          return;
        }
      }
      assert files == was - {m} == Shifted(was, m, 0);
      RotationRetains(was, m, 0);
      for index := m downto 1
        invariant ok && files == Shifted(was, m, m - index)
        invariant old(states) <= states
        invariant forall i :: |old(states)| <= i < |states| ==>
                    InRotation(m, was, states[i]) && Retained(states[i], m) == Retained(was - {m}, m)
      {
        TargetIsFree(was, m, m - index - 1);
        RotationRetains(was, m, m - index);
        if index in files {
          ok := Rename(index, index + 1);
          if !ok {
            return;
          }
        }
      }
      TargetIsFree(was, m, m - 1);
      RotationRetains(was, m, m);
      assert InSlot(files, 0) == InSlot(was, 0);
      ok := Rename(0, 1);
    }

    /** Verify, number and sign the record, rotate, write the line and flush it to disk. When a file operation fails,
        what is left is the log as it was, or with its rotation under way, or with the line written in part, or, if only
        the flush fails, completely. */
    method Append(payload: Payload) returns (r: Result<(), AppendError>)
      modifies this
      ensures match Appended(config, old(files), payload) {
                case Ok(after) =>
                  || (r.Ok? && files == after)
                  || (r == Err(StorageFailed) && Interrupted(config, old(files), payload, files))
                case Err(error) => r == Err(error) && files == old(files)
              }
      ensures (forall n :: !fails(n)) && Appended(config, old(files), payload).Ok? ==> r.Ok?
      ensures old(states) <= states
      ensures Appended(config, old(files), payload).Ok? ==>
                forall i :: |old(states)| <= i < |states| ==> Interrupted(config, old(files), payload, states[i])
      ensures Appended(config, old(files), payload).Err? ==> states == old(states)
    {
      hide Retained, CheckFiles, Rotated, Written, Step, Shifted, Opened, Torn;
      var report := VerifyChain();
      if report.verdict.Refused? {
        return Err(IntegrityFailed);
      }
      var last := if report.verdict.last.Some? then report.verdict.last.value else 0;
      if last == U64_MAX {
        return Err(IntegrityFailed);
      }
      var body := Unsigned(payload, INTEGRITY_VERSION, last + 1, report.verdict.lastMac);
      var line := config.scheme.write(Record(body, EncodeHex(config.scheme.mac(body))));
      if config.bytes(line) > MAX_EVENT_BYTES {
        return Err(StorageFailed);
      }
      assert Appended(config, old(files), payload).Ok? && line == NewLine(config, old(files), payload);
      var rotated := RotateIfNeeded(config.bytes(line) + 1);
      if !rotated {
        return Err(StorageFailed);
      }
      RotatedIsShifted(config, old(files), config.bytes(line) + 1);
      var written := WriteLine(line);
      r := if written then Ok(()) else Err(StorageFailed);
    }

    /** Opens the active file for appending, creating it if it does not exist, writes one line and flushes it. */
    method WriteLine(line: string) returns (ok: bool)
      modifies this
      ensures (forall n :: !fails(n)) ==> ok
      ensures ok ==> files == Written(old(files), line)
      ensures !ok ==> files == old(files) || files == Opened(old(files)) || PartWritten(old(files), line, files)
      ensures old(states) <= states
      ensures forall i :: |old(states)| <= i < |states| ==>
                states[i] == Opened(old(files)) || PartWritten(old(files), line, states[i])
    {
      hide Torn, Written;
      TornEnds(files, line);
      ok := !fails(attempts);
      attempts := attempts + 1;
      if !ok {
        return;
      }
      if 0 !in files {
        files := files[0 := Text("")];
        states := states + [files];
      }
      ok := !fails(attempts);
      var count := if ok || tears(attempts) > |line| + 1 then |line| + 1 else tears(attempts);
      attempts := attempts + 1;
      WriteTo(old(files), files, line, count);
      files := files[0 := Text((if files[0].Text? then files[0].text else "") + (line + "\n")[..count])];
      states := states + [files];
      if !ok {
        return;
      }
      ok := !fails(attempts);
      attempts := attempts + 1;
    }
  }

  lemma {:induction false} WriteTo(files: Slots, ready: Slots, line: string, count: nat)
    requires ready == Opened(files) && count <= |line| + 1
    ensures ready[0 := Text((if ready[0].Text? then ready[0].text else "") + (line + "\n")[..count])] ==
              Torn(files, line, count)
  {
  }

  /** The states an append goes through and may stop in. */
  ghost predicate Interrupted(c: Config, before: Slots, payload: Payload, after: Slots)
    requires Appended(c, before, payload).Ok?
  {
    var line := NewLine(c, before, payload);
    LeftBehind(c.maxArchives, before, after) || PartWritten(Rotated(c, before, c.bytes(line) + 1), line, after)
  }

  lemma {:induction false} RotatedIsShifted(c: Config, files: Slots, incoming: nat)
    ensures Rotated(c, files, incoming) == files || InRotation(c.maxArchives, files, Rotated(c, files, incoming))
  {
    hide Shifted;
    if RotationNeeded(c, files, incoming) {
      assert Rotated(c, files, incoming) == Shifted(files, c.maxArchives, c.maxArchives);
    }
  }

  lemma {:induction false} RefusedRest(s: Scheme, contents: seq<Content>, n: nat)
    requires n <= |contents| && CheckFiles(s, contents[..n]).Refused?
    ensures CheckFiles(s, contents) == CheckFiles(s, contents[..n])
    decreases |contents|
  {
    if n == |contents| {
      assert contents[..n] == contents;
    } else {
      var rest := contents[..|contents| - 1];
      assert rest[..n] == contents[..n];
      RefusedRest(s, rest, n);
    }
  }

  lemma {:induction false} RefusedLines(s: Scheme, before: Verdict, lines: seq<string>, n: nat)
    requires n <= |lines| && CheckFrom(s, before, lines[..n]).Refused?
    ensures CheckFrom(s, before, lines) == CheckFrom(s, before, lines[..n])
    decreases |lines|
  {
    if n == |lines| {
      assert lines[..n] == lines;
    } else {
      var rest := lines[..|lines| - 1];
      assert rest[..n] == lines[..n];
      RefusedLines(s, before, rest, n);
    }
  }
}
