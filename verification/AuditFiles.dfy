/** The audit files: reading them back as lines, rotating them, and appending to them. */
module AuditFiles {
  import opened Machine
  import opened Outcomes
  import opened AuditChain
  import opened TextLines

  /** The bytes of a file: valid UTF-8 text, or something else of which only its size and last byte matter, or bytes
      that cannot be read. */
  datatype Content = Text(text: string) | Binary(newline: bool, size: nat) | Unreadable(size: nat)

  /** Slot 0 is the active file, slot `i` the archive numbered `i`. */
  type Slots = map<nat, Content>

  datatype Config = Config(scheme: Scheme, bytes: string -> nat, maxFileBytes: nat, maxArchives: nat)

  const MAX_EVENT_BYTES: nat := 128 * 1024

  datatype AppendError = IntegrityFailed | StorageFailed

  // Lines

  predicate Whole(text: string) {
    text == "" || text[|text| - 1] == '\n'
  }

  /** A text that a reader of lines gives back as one line. */
  predicate OneLine(line: string) {
    line != "" && '\n' !in line && line[|line| - 1] != '\r'
  }

  /** Lines of a text that starts with a line and its newline. */
  lemma {:induction false} FirstLine(line: string, rest: string)
    requires '\n' !in line
    ensures Lines(line + ['\n'] + rest) == [StripReturn(line)] + Lines(rest)
  {
    hide StripReturn;
    var text := line + ['\n'] + rest;
    assert forall i :: 0 <= i < |line| ==> text[i] == line[i] && line[i] in line;
    assert text[|line|] == '\n';
    assert IndexOf(text, '\n') == |line|;
    assert text[..|line|] == line && text[|line| + 1..] == rest;
  }

  /** A line written after whole lines is read back after them. */
  lemma {:induction false} LinesOfAppended(text: string, line: string)
    requires Whole(text) && OneLine(line)
    ensures Lines(text + line + "\n") == Lines(text) + [line] && Whole(text + line + "\n")
    decreases |text|
  {
    hide Lines, IndexOf;
    var more := text + line + "\n";
    assert more[|more| - 1] == '\n';
    NoLines();
    if text == "" {
      assert more == line + ['\n'] + "";
      FirstLine(line, "");
    } else {
      var n := IndexOf(text, '\n');
      assert text[|text| - 1] == '\n' && n < |text|;
      var head, rest := text[..n], text[n + 1..];
      assert text == head + ['\n'] + rest;
      FirstLine(head, rest);
      assert more == head + ['\n'] + (rest + line + "\n");
      FirstLine(head, rest + line + "\n");
      LinesOfAppended(rest, line);
    }
  }

  // Verification over files

  predicate Readable(c: Content) {
    c.Text? && Whole(c.text)
  }

  function CheckFrom(s: Scheme, v: Verdict, lines: seq<string>): Verdict {
    if lines == [] then v else Step(s, CheckFrom(s, v, lines[..|lines| - 1]), lines[|lines| - 1])
  }

  function CheckFile(s: Scheme, v: Verdict, c: Content): Verdict {
    if v.Refused? then v
    else match c
      case Unreadable(_) => Refused("audit_file_unreadable")
      case Binary(newline, _) => Refused(if newline then "audit_invalid_encoding" else "audit_truncated_record")
      case Text(text) => if !Whole(text) then Refused("audit_truncated_record") else CheckFrom(s, v, Lines(text))
  }

  function CheckFiles(s: Scheme, files: seq<Content>): Verdict {
    if files == [] then START else CheckFile(s, CheckFiles(s, files[..|files| - 1]), files[|files| - 1])
  }

  predicate AllReadable(files: seq<Content>) {
    forall i :: 0 <= i < |files| ==> Readable(files[i])
  }

  /** All lines of the files, oldest file first. */
  function AllLines(files: seq<Content>): seq<string>
    requires AllReadable(files)
  {
    if files == [] then [] else AllLines(files[..|files| - 1]) + Lines(files[|files| - 1].text)
  }

  lemma {:induction false} CheckJoins(s: Scheme, a: seq<string>, b: seq<string>)
    ensures CheckFrom(s, Check(s, a), b) == Check(s, a + b)
  {
    hide Step;
    if b == [] {
      assert a + b == a;
    } else {
      CheckJoins(s, a, b[..|b| - 1]);
      assert (a + b)[..|a + b| - 1] == a + b[..|b| - 1];
    }
  }

  lemma {:induction false} RefusedFrom(s: Scheme, v: Verdict, lines: seq<string>)
    requires v.Refused?
    ensures CheckFrom(s, v, lines) == v
  {
    if lines != [] {
      RefusedFrom(s, v, lines[..|lines| - 1]);
    }
  }

  /** File boundaries do not matter: the files are verified as the sequence of all their lines. */
  lemma {:induction false} FilesAreLines(s: Scheme, files: seq<Content>)
    ensures AllReadable(files) ==> CheckFiles(s, files) == Check(s, AllLines(files))
    ensures !AllReadable(files) ==> CheckFiles(s, files).Refused?
  {
    hide Step, Lines, Whole;
    if files != [] {
      var n := |files| - 1;
      FilesAreLines(s, files[..n]);
      if AllReadable(files) {
        var lines := Lines(files[n].text);
        CheckJoins(s, AllLines(files[..n]), lines);
        if CheckFiles(s, files[..n]).Refused? {
          RefusedFrom(s, CheckFiles(s, files[..n]), lines);
        }
      } else if AllReadable(files[..n]) {
        assert forall i :: 0 <= i < n ==> files[i] == files[..n][i];
        assert !Readable(files[n]);
      }
    }
  }

  /** Verification accepts exactly the files that hold a good log. */
  lemma {:induction false} PermitsExactlyGoodLogs(s: Scheme, files: seq<Content>)
    ensures CheckFiles(s, files).Accepted? <==> AllReadable(files) && GoodLog(s, AllLines(files))
    ensures CheckFiles(s, files).Accepted? ==> Tallied(s, AllLines(files), CheckFiles(s, files))
  {
    hide CheckFiles, Check, GoodLog, Tallied, AllLines, AllReadable;
    FilesAreLines(s, files);
    if AllReadable(files) {
      AcceptsExactlyGoodLogs(s, AllLines(files));
    }
  }

  // Retained files

  function InSlot(files: Slots, i: nat): (c: seq<Content>)
    ensures |c| <= 1
  {
    if i in files then [files[i]] else []
  }

  /** The contents of the slots from `m` down to the active file: oldest to newest. */
  function Retained(files: Slots, m: nat): seq<Content> {
    if m == 0 then InSlot(files, 0) else InSlot(files, m) + Retained(files, m - 1)
  }

  function Move(files: Slots, from: nat, to: nat): Slots {
    if from in files then (files - {from})[to := files[from]] else files
  }

  /** The slots after the oldest archive was removed and `j` files were moved one slot up. */
  function Shifted(files: Slots, m: nat, j: nat): Slots
    requires j <= m
  {
    if j == 0 then files - {m} else Move(Shifted(files, m, j - 1), m - j, m - j + 1)
  }

  lemma {:induction false} RetainedSame(f: Slots, g: Slots, m: nat)
    requires forall i :: 0 <= i <= m ==> InSlot(f, i) == InSlot(g, i)
    ensures Retained(f, m) == Retained(g, m)
  {
    if m > 0 {
      RetainedSame(f, g, m - 1);
    }
  }

  /** Moving a file into the free slot above it keeps the order of what is retained. */
  lemma {:induction false} MoveRetains(files: Slots, a: nat, m: nat)
    requires a + 1 <= m && a + 1 !in files
    ensures Retained(Move(files, a, a + 1), m) == Retained(files, m)
  {
    var moved := Move(files, a, a + 1);
    if m == a + 1 {
      if a > 0 {
        RetainedSame(moved, files, a - 1);
      }
    } else {
      MoveRetains(files, a, m - 1);
      assert InSlot(moved, m) == InSlot(files, m);
    }
  }

  /** Before the `j`-th move its target is free, and the slots below are as they were. */
  lemma {:induction false} TargetIsFree(files: Slots, m: nat, j: nat)
    requires j <= m
    ensures m - j !in Shifted(files, m, j)
    ensures forall i :: 0 <= i < m - j ==> InSlot(Shifted(files, m, j), i) == InSlot(files, i)
  {
    if j > 0 {
      TargetIsFree(files, m, j - 1);
    }
  }

  /** At every step of a rotation what is retained is what was retained without the oldest archive. */
  lemma {:induction false} RotationRetains(files: Slots, m: nat, j: nat)
    requires j <= m
    ensures Retained(Shifted(files, m, j), m) == Retained(files - {m}, m)
    ensures Retained(files, m) == InSlot(files, m) + Retained(Shifted(files, m, j), m)
  {
    if j > 0 {
      RotationRetains(files, m, j - 1);
      TargetIsFree(files, m, j - 1);
      MoveRetains(Shifted(files, m, j - 1), m - j, m);
    } else {
      if m > 0 {
        RetainedSame(files - {m}, files, m - 1);
      }
      assert InSlot(files - {m}, m) == [];
    }
  }

  lemma {:induction false} LinesSplit(a: seq<Content>, b: seq<Content>)
    requires AllReadable(a + b)
    ensures AllReadable(a) && AllReadable(b) && AllLines(a + b) == AllLines(a) + AllLines(b)
  {
    hide Readable, Lines;
    assert forall i :: 0 <= i < |a| ==> a[i] == (a + b)[i];
    assert forall i :: 0 <= i < |b| ==> b[i] == (a + b)[|a| + i];
    LinesJoin(a, b);
  }

  lemma {:induction false} LinesJoin(a: seq<Content>, b: seq<Content>)
    requires AllReadable(a) && AllReadable(b) && AllReadable(a + b)
    ensures AllLines(a + b) == AllLines(a) + AllLines(b)
  {
    hide Readable, Lines;
    if b == [] {
      assert a + b == a;
    } else {
      var n := |b| - 1;
      assert (a + b)[..|a + b| - 1] == a + b[..n];
      LinesJoin(a, b[..n]);
    }
  }

  predicate Permitted(c: Config, files: Slots) {
    CheckFiles(c.scheme, Retained(files, c.maxArchives)).Accepted?
  }

  function LinesIn(c: Config, files: Slots): seq<string>
    requires AllReadable(Retained(files, c.maxArchives))
  {
    AllLines(Retained(files, c.maxArchives))
  }

  /** A suffix of the retained files of a log that verifies holds a suffix of its lines, and verifies. */
  lemma {:induction false} SuffixVerifies(c: Config, before: Slots, dropped: seq<Content>, after: Slots)
    requires Permitted(c, before) && Retained(before, c.maxArchives) == dropped + Retained(after, c.maxArchives)
    ensures Permitted(c, after)
    ensures AllReadable(Retained(before, c.maxArchives)) && AllReadable(dropped)
            && AllReadable(Retained(after, c.maxArchives))
    ensures LinesIn(c, before) == AllLines(dropped) + LinesIn(c, after)
  {
    hide Retained, CheckFiles, GoodLog, AllLines, AllReadable, Tallied;
    var s, kept := c.scheme, Retained(after, c.maxArchives);
    PermitsExactlyGoodLogs(s, dropped + kept);
    LinesSplit(dropped, kept);
    var lines := AllLines(dropped + kept);
    StretchIsGood(s, lines, |AllLines(dropped)|, |lines|);
    assert lines[|AllLines(dropped)|..|lines|] == AllLines(kept);
    PermitsExactlyGoodLogs(s, kept);
  }

  /** A rotation may stop after any of its steps: no step lands on an existing file, and what is left verifies and holds
      the lines of the log without those of the oldest archive. */
  lemma {:induction false} StoppedRotationVerifies(c: Config, files: Slots, j: nat)
    requires Permitted(c, files) && j <= c.maxArchives
    ensures Permitted(c, Shifted(files, c.maxArchives, j))
    ensures j < c.maxArchives ==> c.maxArchives - j !in Shifted(files, c.maxArchives, j)
    ensures AllReadable(Retained(files, c.maxArchives)) && AllReadable(InSlot(files, c.maxArchives))
            && AllReadable(Retained(Shifted(files, c.maxArchives, j), c.maxArchives))
    ensures LinesIn(c, files) == AllLines(InSlot(files, c.maxArchives)) + LinesIn(c, Shifted(files, c.maxArchives, j))
  {
    hide *;
    RotationRetains(files, c.maxArchives, j);
    TargetIsFree(files, c.maxArchives, j);
    SuffixVerifies(c, files, InSlot(files, c.maxArchives), Shifted(files, c.maxArchives, j));
  }

  // What a failing file operation leaves behind

  /** The active file has been created and is empty. */
  function Opened(files: Slots): Slots {
    if 0 in files then files else files[0 := Text("")]
  }

  /** An append that stopped: nothing was rotated or the rotation went some way, and the active file may have been
      created. */
  ghost predicate LeftBehind(m: nat, before: Slots, after: Slots) {
    || after == before || after == Opened(before)
    || exists j :: 0 <= j <= m && (after == Shifted(before, m, j) || after == Opened(Shifted(before, m, j)))
  }

  /** A rotation under way or done. */
  ghost predicate InRotation(m: nat, before: Slots, after: Slots) {
    exists j :: 0 <= j <= m && after == Shifted(before, m, j)
  }

  lemma {:induction false} OpenedVerifies(c: Config, files: Slots)
    requires Permitted(c, files)
    ensures Permitted(c, Opened(files)) && AllReadable(Retained(files, c.maxArchives))
    ensures AllReadable(Retained(Opened(files), c.maxArchives)) && LinesIn(c, Opened(files)) == LinesIn(c, files)
  {
    hide Retained, CheckFiles, GoodLog, Tallied, Older;
    PermittedIsReadable(c, files);
    if 0 !in files {
      var m := c.maxArchives;
      ActiveIsLast(files, m, Text(""));
      var older := Older(files, m);
      assert older + [] == older;
      NoLines();
      var more := older + [Text("")];
      assert more[..|older|] == older && more[|older|] == Text("");
      assert Retained(files, m) == older && Retained(Opened(files), m) == more;
      assert AllReadable(more) && AllLines(more) == AllLines(older) + [] == AllLines(older);
      PermitsExactlyGoodLogs(c.scheme, older);
      PermitsExactlyGoodLogs(c.scheme, older + [Text("")]);
    }
  }

  /** Whatever a failing append leaves behind verifies. */
  lemma {:induction false} LeftBehindVerifies(c: Config, before: Slots, after: Slots)
    requires Permitted(c, before) && LeftBehind(c.maxArchives, before, after)
    ensures Permitted(c, after)
  {
    hide Permitted, Shifted, Opened, LinesIn, AllReadable;
    if after == Opened(before) {
      OpenedVerifies(c, before);
    } else if after != before {
      var j :| 0 <= j <= c.maxArchives
               && (after == Shifted(before, c.maxArchives, j) || after == Opened(Shifted(before, c.maxArchives, j)));
      StoppedRotationVerifies(c, before, j);
      OpenedVerifies(c, Shifted(before, c.maxArchives, j));
    }
  }

  // Appending

  function ByteSize(c: Config, content: Content): nat {
    match content
    case Text(text) => c.bytes(text)
    case Binary(_, size) => size
    case Unreadable(size) => size
  }

  predicate RotationNeeded(c: Config, files: Slots, incoming: nat) {
    0 in files && ByteSize(c, files[0]) + incoming > c.maxFileBytes
  }

  /** Without archives the active file is dropped; with archives every file moves one slot up. */
  function Rotated(c: Config, files: Slots, incoming: nat): Slots {
    if RotationNeeded(c, files, incoming) then Shifted(files, c.maxArchives, c.maxArchives) else files
  }

  function NextRecord(s: Scheme, v: Verdict, payload: Payload): Option<Record>
    requires v.Accepted?
  {
    if LastOrZero(v) == U64_MAX then None
    else
      var body := Unsigned(payload, INTEGRITY_VERSION, LastOrZero(v) + 1, v.lastMac);
      Some(Record(body, EncodeHex(s.mac(body))))
  }

  /** The active file with one more line. */
  function Written(files: Slots, line: string): Slots {
    files[0 := Text((if 0 in files && files[0].Text? then files[0].text else "") + line + "\n")]
  }

  function Appended(c: Config, files: Slots, payload: Payload): Result<Slots, AppendError> {
    var v := CheckFiles(c.scheme, Retained(files, c.maxArchives));
    if v.Refused? then Err(IntegrityFailed)
    else
      var next := NextRecord(c.scheme, v, payload);
      if next.None? then Err(IntegrityFailed)
      else
        var line := c.scheme.write(next.value);
        if c.bytes(line) > MAX_EVENT_BYTES then Err(StorageFailed)
        else Ok(Written(Rotated(c, files, c.bytes(line) + 1), line))
  }

  /** The line that a successful append writes. */
  function NewLine(c: Config, files: Slots, payload: Payload): string
    requires Appended(c, files, payload).Ok?
  {
    c.scheme.write(NextRecord(c.scheme, CheckFiles(c.scheme, Retained(files, c.maxArchives)), payload).value)
  }

  /** The active file with the first `n` characters of one more line and its newline. */
  function Torn(files: Slots, line: string, n: nat): Slots
    requires n <= |line| + 1
  {
    files[0 := Text((if 0 in files && files[0].Text? then files[0].text else "") + (line + "\n")[..n])]
  }

  /** The line has been written completely, or in part, or not at all. */
  ghost predicate PartWritten(files: Slots, line: string, after: Slots) {
    exists n :: 0 <= n <= |line| + 1 && after == Torn(files, line, n)
  }

  /** What is asked of the JSON codec: a record is written as one line and read back as itself. */
  ghost predicate Faithful(s: Scheme) {
    forall r :: OneLine(s.write(r)) && s.read(s.write(r)) == Signed(r)
  }

  /** The next record is genuine on its own and continues any stretch of the log that reaches its end. */
  lemma {:induction false} NextRecordContinues(s: Scheme, lines: seq<string>, v: Verdict, payload: Payload, from: nat)
    requires Faithful(s) && GoodLog(s, lines) && Tallied(s, lines, v) && NextRecord(s, v, payload).Some?
             && from <= |lines|
    ensures GoodLog(s, lines[from..] + [s.write(NextRecord(s, v, payload).value)])
  {
    var r := NextRecord(s, v, payload).value;
    var line := s.write(r);
    NextIsGenuine(s, lines, v, payload);
    StretchIsGood(s, lines, from, |lines|);
    var kept := lines[from..];
    assert kept == lines[from..|lines|];
    var more := kept + [line];
    forall i | 0 < i < |more| && Genuine(s, more[i - 1])
      ensures Genuine(s, more[i]) && Linked(RecordOf(s, more[i - 1]), RecordOf(s, more[i]))
    {
      if i == |kept| {
        assert more[i - 1] == lines[|lines| - 1];
        LastGenuineMeansSigned(s, lines, v);
      }
    }
  }

  lemma {:induction false} LastGenuineMeansSigned(s: Scheme, lines: seq<string>, v: Verdict)
    requires Tallied(s, lines, v) && lines != [] && Genuine(s, lines[|lines| - 1])
    ensures v.signed > 0
  {
  }

  lemma {:induction false} NextIsGenuine(s: Scheme, lines: seq<string>, v: Verdict, payload: Payload)
    requires Faithful(s) && Tallied(s, lines, v) && NextRecord(s, v, payload).Some?
    ensures Genuine(s, s.write(NextRecord(s, v, payload).value))
    ensures RecordOf(s, s.write(NextRecord(s, v, payload).value)) == NextRecord(s, v, payload).value
  {
    hide DecodeMac, EncodeHex;
    var r := NextRecord(s, v, payload).value;
    DecodesEncoded(s.mac(r.body));
    if v.signed > 0 {
      assert Genuine(s, lines[|lines| - 1]);
    }
  }

  /** Rotation drops whole lines from the front of the log, if any. */
  lemma {:induction false} RotatedVerifies(c: Config, files: Slots, incoming: nat) returns (from: nat)
    requires Permitted(c, files)
    ensures var after := Rotated(c, files, incoming);
            && Permitted(c, after)
            && AllReadable(Retained(files, c.maxArchives)) && AllReadable(Retained(after, c.maxArchives))
            && from <= |LinesIn(c, files)| && LinesIn(c, after) == LinesIn(c, files)[from..]
            && (!RotationNeeded(c, files, incoming) ==> from == 0)
            && (RotationNeeded(c, files, incoming) ==>
                  AllReadable(InSlot(files, c.maxArchives)) && from == |AllLines(InSlot(files, c.maxArchives))|)
  {
    hide Retained, CheckFiles, AllLines, AllReadable, Shifted, InSlot, Permitted;
    if RotationNeeded(c, files, incoming) {
      StoppedRotationVerifies(c, files, c.maxArchives);
      from := |AllLines(InSlot(files, c.maxArchives))|;
    } else {
      PermittedIsReadable(c, files);
      from := 0;
    }
  }

  lemma {:induction false} PermittedIsReadable(c: Config, files: Slots)
    requires Permitted(c, files)
    ensures AllReadable(Retained(files, c.maxArchives))
  {
    hide CheckFiles, Retained, AllReadable, GoodLog, Tallied, AllLines;
    PermitsExactlyGoodLogs(c.scheme, Retained(files, c.maxArchives));
  }

  function Older(files: Slots, m: nat): seq<Content> {
    if m == 0 then [] else InSlot(files, m) + Older(files, m - 1)
  }

  /** The active file is the last of the retained files. */
  lemma {:induction false} ActiveIsLast(files: Slots, m: nat, content: Content)
    ensures Retained(files, m) == Older(files, m) + InSlot(files, 0)
    ensures Retained(files[0 := content], m) == Older(files, m) + [content]
  {
    if m > 0 {
      ActiveIsLast(files, m - 1, content);
      assert InSlot(files[0 := content], m) == InSlot(files, m);
    }
  }

  /** Writing a line adds it at the end of the log. */
  lemma {:induction false} WrittenLines(c: Config, files: Slots, line: string)
    requires AllReadable(Retained(files, c.maxArchives)) && OneLine(line)
    ensures AllReadable(Retained(Written(files, line), c.maxArchives))
    ensures LinesIn(c, Written(files, line)) == LinesIn(c, files) + [line]
  {
    hide Retained, Lines, Whole, OneLine, Older;
    var content := Written(files, line)[0];
    ActiveIsLast(files, c.maxArchives, content);
    ActiveWritten(Older(files, c.maxArchives), files, line);
  }

  // A line that is written in part

  lemma {:induction false} TornEnds(files: Slots, line: string)
    ensures Torn(files, line, |line| + 1) == Written(files, line)
    ensures (0 in files ==> files[0].Text?) ==> Torn(files, line, 0) == Opened(files)
  {
    var text := if 0 in files && files[0].Text? then files[0].text else "";
    assert (line + "\n")[..|line| + 1] == line + "\n";
    assert text + (line + "\n") == text + line + "\n";
    assert text + (line + "\n")[..0] == text;
  }

  /** A log whose active file does not end with a newline is refused, and so is every append to it. */
  lemma {:induction false} TornIsRefused(c: Config, files: Slots, line: string, n: nat)
    requires OneLine(line) && 0 < n <= |line|
    ensures !Permitted(c, Torn(files, line, n))
    ensures forall payload :: Appended(c, Torn(files, line, n), payload) == Err(IntegrityFailed)
  {
    hide Lines, Step, Older;
    var torn := Torn(files, line, n);
    var text := torn[0].text;
    assert text[|text| - 1] == line[n - 1] && line[n - 1] in line;
    ActiveIsLast(files, c.maxArchives, torn[0]);
    var older := Older(files, c.maxArchives);
    assert Retained(torn, c.maxArchives) == older + [torn[0]];
    assert (older + [torn[0]])[..|older|] == older;
  }

  /** An append that is interrupted while it writes its line leaves a log that verifies if and only if nothing of the
      line was written, or all of it. Otherwise no append succeeds from then on. */
  lemma {:induction false} TornVerifiesIff(c: Config, files: Slots, payload: Payload, n: nat)
    requires Faithful(c.scheme) && Permitted(c, files) && Appended(c, files, payload).Ok?
    requires n <= |NewLine(c, files, payload)| + 1
    ensures var line := NewLine(c, files, payload); var torn := Torn(Rotated(c, files, c.bytes(line) + 1), line, n);
            && (Permitted(c, torn) <==> n == 0 || n == |line| + 1)
            && (!Permitted(c, torn) ==> forall later :: Appended(c, torn, later) == Err(IntegrityFailed))
  {
    var line := NewLine(c, files, payload);
    var rotated := Rotated(c, files, c.bytes(line) + 1);
    assert OneLine(line);
    assert Appended(c, files, payload) == Ok(Written(rotated, line));
    hide Permitted, Torn, Appended, Faithful, NewLine, OneLine, Shifted;
    TornEnds(rotated, line);
    if n == 0 {
      ReadyToWrite(c, files, c.bytes(line) + 1);
    } else if n == |line| + 1 {
      AppendVerifies(c, files, payload);
    } else {
      TornIsRefused(c, rotated, line, n);
    }
  }

  lemma {:induction false} ReadyToWrite(c: Config, files: Slots, incoming: nat)
    requires Permitted(c, files)
    ensures var rotated := Rotated(c, files, incoming);
            Permitted(c, Opened(rotated)) && (0 in rotated ==> rotated[0].Text?)
  {
    hide Permitted, Shifted, Opened, LinesIn, AllReadable, Retained;
    var rotated := Rotated(c, files, incoming);
    if RotationNeeded(c, files, incoming) {
      StoppedRotationVerifies(c, files, c.maxArchives);
    }
    OpenedVerifies(c, rotated);
    ActiveIsText(c, rotated);
  }

  lemma {:induction false} ActiveIsText(c: Config, files: Slots)
    requires Permitted(c, files)
    ensures 0 in files ==> files[0].Text?
  {
    hide Retained, Older, CheckFiles;
    PermittedIsReadable(c, files);
    if 0 in files {
      ActiveIsLast(files, c.maxArchives, files[0]);
      assert files[0 := files[0]] == files;
      var all := Retained(files, c.maxArchives);
      assert all[|all| - 1] == files[0];
    }
  }

  lemma {:induction false} NoLines()
    ensures Lines("") == []
  {
  }

  lemma {:induction false} ActiveWritten(older: seq<Content>, files: Slots, line: string)
    requires AllReadable(older + InSlot(files, 0)) && OneLine(line)
    ensures AllReadable(older + [Written(files, line)[0]])
    ensures AllLines(older + [Written(files, line)[0]]) == AllLines(older + InSlot(files, 0)) + [line]
  {
    hide Lines, OneLine;
    var content := Written(files, line)[0];
    var was := InSlot(files, 0);
    LinesSplit(older, was);
    if was != [] {
      assert Readable(was[0]);
      LinesOfAppended(was[0].text, line);
    } else {
      LinesOfAppended("", line);
      NoLines();
    }
    assert Readable(content);
    assert AllReadable(older + [content]);
    LinesSplit(older, [content]);
    assert [content][..0] == [];
  }

  /** A successful append leaves a log that verifies: the old lines, possibly without those of the oldest archive, and
      the new record, whose number is one higher than the last. */
  lemma {:induction false} AppendVerifies(c: Config, files: Slots, payload: Payload)
    requires Faithful(c.scheme) && Appended(c, files, payload).Ok?
    ensures Permitted(c, files) && Permitted(c, Appended(c, files, payload).value)
    ensures var v := CheckFiles(c.scheme, Retained(files, c.maxArchives));
            var w := CheckFiles(c.scheme, Retained(Appended(c, files, payload).value, c.maxArchives));
            && w.last == Some(LastOrZero(v) + 1)
            && w.signed > 0 && w.first.Some? && w.last.value - w.first.value + 1 == w.signed
            && NextRecord(c.scheme, v, payload).Some? && w.lastMac == Some(NextRecord(c.scheme, v, payload).value.mac)
  {
    hide CheckFiles, Retained, AllLines, AllReadable, GoodLog, Tallied, Written, Rotated, OneLine, LinesIn, Genuine;
    var s := c.scheme;
    var v := CheckFiles(s, Retained(files, c.maxArchives));
    PermitsExactlyGoodLogs(s, Retained(files, c.maxArchives));
    var line := s.write(NextRecord(s, v, payload).value);
    var from := RotatedVerifies(c, files, c.bytes(line) + 1);
    var rotated := Rotated(c, files, c.bytes(line) + 1);
    LinesAre(c, files);
    LinesAre(c, rotated);
    assert OneLine(line);
    WrittenLines(c, rotated, line);
    var after := Written(rotated, line);
    LinesAre(c, after);
    NextRecordContinues(s, LinesIn(c, files), v, payload, from);
    PermitsExactlyGoodLogs(s, Retained(after, c.maxArchives));
    NextIsGenuine(s, LinesIn(c, files), v, payload);
    LastLineCounts(s, LinesIn(c, files)[from..], line, CheckFiles(s, Retained(after, c.maxArchives)));
  }

  lemma {:induction false} LinesAre(c: Config, files: Slots)
    requires AllReadable(Retained(files, c.maxArchives))
    ensures LinesIn(c, files) == AllLines(Retained(files, c.maxArchives))
  {
    hide AllReadable, Retained, AllLines;
  }

  lemma {:induction false} LastLineCounts(s: Scheme, lines: seq<string>, line: string, v: Verdict)
    requires Genuine(s, line) && Tallied(s, lines + [line], v)
    ensures v.signed > 0 && v.last == Some(RecordOf(s, line).body.sequence) && v.lastMac == Some(RecordOf(s, line).mac)
    ensures v.first.Some? && v.last.value - v.first.value + 1 == v.signed
  {
    NotBoth(s, line);
    assert (lines + [line])[|lines|] == line;
  }

  // What an append does to the slots and to the lines

  /** After `j` moves the files of the topmost slots are one slot up, and the others are where they were. */
  lemma {:induction false} ShiftMeans(files: Slots, m: nat, j: nat)
    requires j <= m
    ensures var after := Shifted(files, m, j);
            && m - j !in after
            && (forall i: nat :: i < m - j || m < i ==> InSlot(after, i) == InSlot(files, i))
            && forall i: nat :: m - j <= i < m ==> InSlot(after, Above(i)) == InSlot(files, i)
  {
    if j > 0 {
      ShiftMeans(files, m, j - 1);
    }
  }

  function Above(i: nat): nat {
    i + 1
  }

  /** The slots after a line was added: if the active file would become too long, every file moves one slot up, the
      oldest archive goes, and the line starts a file of its own; otherwise it ends the active file. */
  ghost predicate LineAdded(c: Config, files: Slots, line: string, after: Slots) {
    if 0 in files && ByteSize(c, files[0]) + c.bytes(line) + 1 > c.maxFileBytes then
      && 0 in after && after[0] == Text(line + "\n")
      && (forall i: nat :: i < c.maxArchives ==> InSlot(after, Above(i)) == InSlot(files, i))
      && forall i: nat :: c.maxArchives < i ==> InSlot(after, i) == InSlot(files, i)
    else
      && 0 in after && (0 in files ==> files[0].Text?)
      && after[0] == Text((if 0 in files then files[0].text else "") + line + "\n")
      && forall i: nat :: 0 < i ==> InSlot(after, i) == InSlot(files, i)
  }

  lemma {:induction false} WriteAdds(c: Config, files: Slots, line: string)
    requires 0 in files ==> files[0].Text?
    ensures LineAdded(c, files, line, Written(Rotated(c, files, c.bytes(line) + 1), line))
  {
    hide Shifted;
    var m := c.maxArchives;
    ShiftMeans(files, m, m);
    var after := Written(Rotated(c, files, c.bytes(line) + 1), line);
    assert "" + line + "\n" == line + "\n";
    assert forall i: nat :: 0 < i ==> InSlot(after, i) == InSlot(Rotated(c, files, c.bytes(line) + 1), i);
  }

  /** The record that follows these lines: the next number and the MAC of the last line, or the first number and no
      MAC if the log is empty or ends with a line from before the chain. */
  ghost predicate Follows(s: Scheme, lines: seq<string>, r: Record) {
    && r.body.version == 1 && r.mac == EncodeHex(s.mac(r.body))
    && if lines != [] && Genuine(s, lines[|lines| - 1]) then
         var last := RecordOf(s, lines[|lines| - 1]);
         r.body.sequence == last.body.sequence + 1 && r.body.previousMac == Some(last.mac)
       else r.body.sequence == 1 && r.body.previousMac == None
  }

  lemma {:induction false} NextFollows(s: Scheme, lines: seq<string>, v: Verdict, payload: Payload)
    requires Tallied(s, lines, v) && NextRecord(s, v, payload).Some?
    ensures Follows(s, lines, NextRecord(s, v, payload).value)
    ensures NextRecord(s, v, payload).value.body.payload == payload
  {
    hide EncodeHex;
    if lines != [] {
      NotBoth(s, lines[|lines| - 1]);
    }
  }

  /** What a successful append does: one line is added behind the lines that are kept, in the right slot, and it reads
      back as a record of the payload that follows the lines there were. */
  lemma {:induction false} AppendRecords(c: Config, files: Slots, payload: Payload)
    requires Faithful(c.scheme) && Appended(c, files, payload).Ok?
    ensures var after, line := Appended(c, files, payload).value, NewLine(c, files, payload);
            && LineAdded(c, files, line, after)
            && AllReadable(Retained(files, c.maxArchives)) && AllReadable(Retained(after, c.maxArchives))
            && (exists from :: 0 <= from <= |LinesIn(c, files)|
                               && LinesIn(c, after) == LinesIn(c, files)[from..] + [line])
            && c.scheme.read(line).Signed? && c.scheme.read(line).record.body.payload == payload
            && Follows(c.scheme, LinesIn(c, files), c.scheme.read(line).record)
  {
    hide CheckFiles, Retained, AllLines, AllReadable, GoodLog, Tallied, Written, Rotated, OneLine, LinesIn, Genuine,
         LineAdded, Follows, NextRecord;
    var s := c.scheme;
    var v := CheckFiles(s, Retained(files, c.maxArchives));
    PermitsExactlyGoodLogs(s, Retained(files, c.maxArchives));
    var line := NewLine(c, files, payload);
    assert OneLine(line);
    var from := RotatedVerifies(c, files, c.bytes(line) + 1);
    WrittenLines(c, Rotated(c, files, c.bytes(line) + 1), line);
    ActiveIsText(c, files);
    WriteAdds(c, files, line);
    LinesAre(c, files);
    NextFollows(s, LinesIn(c, files), v, payload);
  }
}
