/** What the event-stream reader makes of its bytes, said of the bytes and lines themselves. */
module SseLaws {
  import opened Machine
  import opened Outcomes
  import opened SseStream
  import opened TextLines

  // ---- fields ----

  /** The line gives the named field this value: after a colon, with one space or none, or without a colon. */
  predicate Says(line: string, name: string, value: string) {
    || (line == name && value == "")
    || (line == name + ":" + value && (value == "" || value[0] != ' '))
    || line == name + ": " + value
  }

  lemma {:induction false} SaysIff(line: string, name: string, value: string)
    requires name != "" && ':' !in name
    ensures Says(line, name, value) <==>
            FieldName(line) == name && FieldValue(line) == value && line[0] != ':'
  {
    var n := IndexOf(line, ':');
    if Says(line, name, value) {
      NameEnds(line, name);
    } else if FieldName(line) == name && n < |line| {
      assert line == line[..n] + [line[n]] + line[n + 1..];
      if n + 1 < |line| && line[n + 1] == ' ' {
        assert line == line[..n] + ": " + line[n + 2..];
      }
    }
  }

  /** A name without a colon ends at the first colon of the line, or with the line. */
  lemma {:induction false} NameEnds(line: string, name: string)
    requires ':' !in name && name <= line && (|name| < |line| ==> line[|name|] == ':')
    ensures IndexOf(line, ':') == |name|
  {
    assert forall i :: 0 <= i < |name| ==> name[i] in name;
  }

  /** A line names one field, and gives it one value. */
  lemma {:induction false} SaysOneThing(line: string, name: string)
    requires name != "" && ':' !in name
    ensures forall value :: Says(line, name, value) <==>
                            FieldName(line) == name && (line != "" ==> line[0] != ':') && FieldValue(line) == value
  {
    forall value
      ensures Says(line, name, value) <==>
              FieldName(line) == name && (line != "" ==> line[0] != ':') && FieldValue(line) == value
    {
      SaysIff(line, name, value);
    }
  }

  // ---- numbers ----

  predicate AllDigits(s: string) {
    forall i :: 0 <= i < |s| ==> '0' <= s[i] <= '9'
  }

  function Power(n: nat): nat {
    if n == 0 then 1 else 10 * Power(n - 1)
  }

  function Weighted(digit: nat, place: nat): nat {
    digit * Power(place)
  }

  /** The number that decimal digits stand for, by the weight of each place. */
  function Decimal(s: string): nat
    requires AllDigits(s)
  {
    if s == "" then 0 else Weighted((s[0] - '0') as nat, |s| - 1) + Decimal(s[1..])
  }

  lemma {:induction false} DecimalGrows(s: string, c: char)
    requires AllDigits(s) && '0' <= c <= '9'
    ensures AllDigits(s + [c]) && Decimal(s + [c]) == 10 * Decimal(s) + (c - '0') as nat
  {
    hide Weighted, Power;
    var more := s + [c];
    assert AllDigits(more);
    if s == "" {
      assert more[1..] == "";
      Ones((c - '0') as nat);
    } else {
      DecimalGrows(s[1..], c);
      assert more[1..] == s[1..] + [c];
      TenTimes((s[0] - '0') as nat, |s| - 1);
    }
  }

  lemma {:induction false} Ones(digit: nat)
    ensures Weighted(digit, 0) == digit
  {
  }

  lemma {:induction false} TenTimes(digit: nat, place: nat)
    ensures Weighted(digit, place + 1) == 10 * Weighted(digit, place)
  {
  }

  lemma {:induction false} DigitsMean(s: string)
    ensures Digits(s).Some? <==> AllDigits(s)
    ensures Digits(s).Some? ==> Digits(s).value == Decimal(s)
  {
    if s != "" {
      var front, c := s[..|s| - 1], s[|s| - 1];
      DigitsMean(front);
      assert s == front + [c];
      if AllDigits(s) {
        assert AllDigits(front);
        DecimalGrows(front, c);
      } else if AllDigits(front) {
        assert !('0' <= c <= '9');
      }
    }
  }

  /** A decimal number that fits 64 bits, with or without a plus sign. */
  predicate IsNumber(value: string, n: nat) {
    exists digits :: digits in Unsigned(value) && digits != "" && AllDigits(digits) && n == Decimal(digits)
                     && n <= 0xFFFF_FFFF_FFFF_FFFF
  }

  /** The text, and the text behind its plus sign. */
  function Unsigned(value: string): set<string> {
    {value} + if value != "" && value[0] == '+' then {value[1..]} else {}
  }

  lemma {:induction false} ParseMeans(value: string, n: nat)
    ensures ParseU64(value) == Some(n) <==> IsNumber(value, n)
  {
    var digits := if |value| > 1 && value[0] == '+' then value[1..] else value;
    hide Digits, Decimal;
    DigitsMean(digits);
    assert digits in Unsigned(value);
    forall other | other in Unsigned(value) && other != digits
      ensures other == "" || !AllDigits(other)
    {
      assert other == value ==> value[0] == '+';
    }
  }

  // ---- what the lines of an event leave behind ----

  /** An identifier that is taken into account. */
  predicate Identifies(line: string, value: string) {
    Says(line, "id", value) && '\0' !in value
  }

  /** An identifier the reader refuses to remember. */
  ghost predicate Refuses(line: string) {
    exists value :: Identifies(line, value) && value != ""
                    && (|value| > 1024 || exists i :: 0 <= i < |value| && !('!' <= value[i] <= '~'))
  }

  ghost predicate Delays(line: string, n: nat) {
    exists value :: Says(line, "retry", value) && IsNumber(value, n)
  }

  /** The last line that gives an identifier. */
  ghost predicate LastId(lines: seq<string>, i: nat, value: string) {
    && i < |lines| && Identifies(lines[i], value)
    && forall j, other :: i < j < |lines| ==> !Identifies(lines[j], other)
  }

  ghost predicate NoId(lines: seq<string>) {
    forall i, value :: 0 <= i < |lines| ==> !Identifies(lines[i], value)
  }

  /** The last identifier counts; an empty one removes what was remembered. */
  ghost predicate IdAfter(lines: seq<string>, before: Option<string>, after: Option<string>) {
    || (NoId(lines) && after == before)
    || exists i: nat, value :: LastId(lines, i, value) && after == if value == "" then None else Some(value)
  }

  /** The last line that gives a delay. */
  ghost predicate LastDelay(lines: seq<string>, i: nat, n: nat) {
    && i < |lines| && Delays(lines[i], n)
    && forall j, other: nat :: i < j < |lines| ==> !Delays(lines[j], other)
  }

  ghost predicate NoDelay(lines: seq<string>) {
    forall i, n: nat :: 0 <= i < |lines| ==> !Delays(lines[i], n)
  }

  /** The last delay counts, and it is five seconds at most. */
  ghost predicate RetryAfter(lines: seq<string>, before: nat, after: nat) {
    || (NoDelay(lines) && after == before)
    || exists i: nat, n: nat :: LastDelay(lines, i, n) && after == if n < 5000 then n else 5000
  }

  /** The values of all data lines, in order; `at` are the places of these lines. */
  ghost predicate DataAre(lines: seq<string>, at: seq<nat>, data: seq<string>) {
    && |at| == |data|
    && (forall a, b :: 0 <= a < b < |at| ==> at[a] < at[b])
    && (forall a :: 0 <= a < |at| ==> at[a] < |lines| && Says(lines[at[a]], "data", data[a]))
    && forall i: nat, value :: i < |lines| && Says(lines[i], "data", value) ==> i in at
  }

  lemma {:induction false} RefusesIff(line: string)
    ensures Refuses(line) <==>
            && FieldName(line) == "id" && line != "" && line[0] != ':' && '\0' !in FieldValue(line)
            && FieldValue(line) != "" && !ValidId(FieldValue(line))
  {
    SaysOneThing(line, "id");
    hide FieldName, FieldValue, Says;
    var value := FieldValue(line);
    if Identifies(line, value) && value != "" && !ValidId(value) {
      assert Refuses(line);
    }
  }

  lemma {:induction false} DelaysIff(line: string, n: nat)
    ensures Delays(line, n) <==>
            FieldName(line) == "retry" && line != "" && line[0] != ':' && ParseU64(FieldValue(line)) == Some(n)
  {
    SaysOneThing(line, "retry");
    hide FieldName, FieldValue, Says, IsNumber, ParseU64;
    ParseMeans(FieldValue(line), n);
  }

  /** One line. */
  lemma {:induction false} IdOfLine(f: Fields, line: string)
    requires f.Fields?
    ensures var g := Field(f, line);
            && (g.BadFields? <==> Refuses(line))
            && (g.Fields? ==> IdAfter([line], f.memory.lastEventId, g.memory.lastEventId))
  {
    RefusesIff(line);
    SaysOneThing(line, "id");
    FieldSetsId(f, line);
    hide FieldName, FieldValue, Says, ValidId, Refuses, Field, IdAfter;
    if Field(f, line).Fields? {
      IdAfterOne(line, FieldValue(line), f.memory.lastEventId, Field(f, line).memory.lastEventId);
    }
  }

  lemma {:induction false} IdAfterOne(line: string, value: string, before: Option<string>, after: Option<string>)
    requires forall other :: Identifies(line, other) ==> other == value
    requires Identifies(line, value) ==> after == if value == "" then None else Some(value)
    requires !Identifies(line, value) ==> after == before
    ensures IdAfter([line], before, after)
  {
    hide Identifies;
    if Identifies(line, value) {
      assert LastId([line], 0, value);
    } else {
      assert NoId([line]);
    }
  }

  lemma {:induction false} FieldSetsId(f: Fields, line: string)
    requires f.Fields?
    ensures var g, value := Field(f, line), FieldValue(line);
            if FieldName(line) == "id" && (line != "" ==> line[0] != ':') && '\0' !in value then
              if value != "" && !ValidId(value) then g.BadFields?
              else g.Fields? && g.memory.lastEventId == if value == "" then None else Some(value)
            else g.Fields? && g.memory.lastEventId == f.memory.lastEventId
  {
    hide FieldName, FieldValue, ParseU64, ValidId;
  }

  lemma {:induction false} RetryOfLine(f: Fields, line: string)
    requires f.Fields? && Field(f, line).Fields?
    ensures RetryAfter([line], f.memory.retryMs, Field(f, line).memory.retryMs)
  {
    forall n: nat
      ensures Delays(line, n) <==>
              FieldName(line) == "retry" && line != "" && line[0] != ':' && ParseU64(FieldValue(line)) == Some(n)
    {
      DelaysIff(line, n);
    }
    hide FieldName, FieldValue, Says, ParseU64, ValidId, Delays;
    var number := ParseU64(FieldValue(line));
    if number.Some? && Delays(line, number.value) {
      assert LastDelay([line], 0, number.value);
    } else {
      assert NoDelay([line]);
    }
  }

  lemma {:induction false} DataOfLine(f: Fields, line: string)
    requires f.Fields? && Field(f, line).Fields?
    ensures var g := Field(f, line);
            if Says(line, "data", FieldValue(line)) then g.data == f.data + [FieldValue(line)]
            else g.data == f.data && forall value :: !Says(line, "data", value)
  {
    SaysOneThing(line, "data");
    hide FieldName, FieldValue, Says, ParseU64, ValidId;
  }

  lemma {:induction false} IdAfterMore(lines: seq<string>, line: string, a: Option<string>, b: Option<string>,
                                       c: Option<string>)
    requires IdAfter(lines, a, b) && IdAfter([line], b, c)
    ensures IdAfter(lines + [line], a, c)
  {
    hide Identifies;
    var more := lines + [line];
    assert more[|lines|] == line && forall i :: 0 <= i < |lines| ==> more[i] == lines[i];
    if NoId([line]) {
      assert [line][0] == line && b == c;
      if NoId(lines) {
        assert NoId(more);
      } else {
        var i: nat, value :| LastId(lines, i, value) && b == if value == "" then None else Some(value);
        assert LastId(more, i, value);
      }
    } else {
      var i: nat, value :| LastId([line], i, value) && c == if value == "" then None else Some(value);
      assert LastId(more, |lines|, value);
    }
  }

  lemma {:induction false} RetryAfterMore(lines: seq<string>, line: string, a: nat, b: nat, c: nat)
    requires RetryAfter(lines, a, b) && RetryAfter([line], b, c)
    ensures RetryAfter(lines + [line], a, c)
  {
    hide Delays;
    var more := lines + [line];
    assert more[|lines|] == line && forall i :: 0 <= i < |lines| ==> more[i] == lines[i];
    if NoDelay([line]) {
      assert [line][0] == line && b == c;
      if NoDelay(lines) {
        assert NoDelay(more);
      } else {
        var i: nat, n: nat :| LastDelay(lines, i, n) && b == if n < 5000 then n else 5000;
        assert LastDelay(more, i, n);
      }
    } else {
      var i: nat, n: nat :| LastDelay([line], i, n) && c == if n < 5000 then n else 5000;
      assert LastDelay(more, |lines|, n);
    }
  }

  lemma {:induction false} DataAreMore(lines: seq<string>, line: string, at: seq<nat>, data: seq<string>, value: string)
    requires DataAre(lines, at, data)
    ensures Says(line, "data", value) ==> DataAre(lines + [line], at + [|lines|], data + [value])
    ensures (forall other :: !Says(line, "data", other)) ==> DataAre(lines + [line], at, data)
  {
    hide Says;
    var more := lines + [line];
    assert more[|lines|] == line && forall i :: 0 <= i < |lines| ==> more[i] == lines[i];
    var at' := at + [|lines|];
    assert forall i :: i in at || i == |lines| ==> i in at';
  }

  ghost predicate SomeData(lines: seq<string>, data: seq<string>) {
    exists at :: DataAre(lines, at, data)
  }

  /** What the lines of an event leave behind. */
  lemma {:induction false} FieldsMean(memory: Memory, lines: seq<string>)
    ensures var f := AllFields(Fields([], memory), lines);
            && (f.BadFields? <==> exists line :: line in lines && Refuses(line))
            && (f.Fields? ==>
                  && SomeData(lines, f.data)
                  && IdAfter(lines, memory.lastEventId, f.memory.lastEventId)
                  && RetryAfter(lines, memory.retryMs, f.memory.retryMs))
  {
    hide Field, Refuses, IdAfter, RetryAfter, DataAre, Says, FieldValue;
    if lines == [] {
      Nothing(memory);
    } else {
      var n := |lines| - 1;
      var front, line := lines[..n], lines[n];
      assert lines == front + [line];
      FieldsMean(memory, front);
      var f := AllFields(Fields([], memory), front);
      if f.Fields? {
        IdOfLine(f, line);
        var g := Field(f, line);
        if g.Fields? {
          RetryOfLine(f, line);
          DataOfLine(f, line);
          IdAfterMore(front, line, memory.lastEventId, f.memory.lastEventId, g.memory.lastEventId);
          RetryAfterMore(front, line, memory.retryMs, f.memory.retryMs, g.memory.retryMs);
          var at :| DataAre(front, at, f.data);
          DataAreMore(front, line, at, f.data, FieldValue(line));
        }
      } else {
        BadFieldsStay(Fields([], memory), lines, n);
      }
    }
  }

  lemma {:induction false} Nothing(memory: Memory)
    ensures SomeData([], []) && IdAfter([], memory.lastEventId, memory.lastEventId)
    ensures RetryAfter([], memory.retryMs, memory.retryMs)
  {
    assert DataAre([], [], []);
  }

  // ---- the answer ----

  /** The line is in the text, and a newline behind it if `more` lines follow. */
  ghost predicate LineAt(line: string, start: nat, text: string, more: bool) {
    && start + |line| <= |text| && text[start..start + |line|] == line
    && (more ==> start + |line| < |text| && text[start + |line|] == '\n')
  }

  /** The text is the lines with a newline between each two; `at` is where each line starts. */
  ghost predicate JoinedAt(lines: seq<string>, at: seq<nat>, text: string) {
    && |at| == |lines| > 0 && at[0] == 0
    && (forall k :: 0 <= k < |lines| ==> LineAt(lines[k], at[k], text, k < |lines| - 1))
    && (forall k :: 0 <= k < |lines| - 1 ==> NextStart(at, k) == at[k] + |lines[k]| + 1)
    && at[|lines| - 1] + |lines[|lines| - 1]| == |text|
  }

  ghost function NextStart(at: seq<nat>, k: nat): nat
    requires k + 1 < |at|
  {
    at[k + 1]
  }

  lemma {:induction false} JoinMeans(lines: seq<string>) returns (at: seq<nat>)
    requires lines != []
    ensures JoinedAt(lines, at, Join(lines))
  {
    if |lines| == 1 {
      at := [0];
    } else {
      var n := |lines| - 1;
      var before := JoinMeans(lines[..n]);
      var front := Join(lines[..n]);
      hide Join, JoinedAt;
      at := before + [|front| + 1];
      JoinOneMore(lines[..n], before, front, lines[n]);
      assert lines == lines[..n] + [lines[n]];
      assert Join(lines) == front + "\n" + lines[n] by {
        JoinLast(lines);
      }
    }
  }

  lemma {:induction false} JoinLast(lines: seq<string>)
    requires |lines| > 1
    ensures Join(lines) == Join(lines[..|lines| - 1]) + "\n" + lines[|lines| - 1]
  {
  }

  lemma {:induction false} JoinOneMore(lines: seq<string>, at: seq<nat>, text: string, line: string)
    requires JoinedAt(lines, at, text)
    ensures JoinedAt(lines + [line], at + [|text| + 1], text + "\n" + line)
  {
    hide LineAt;
    var lines', at', text' := lines + [line], at + [|text| + 1], text + "\n" + line;
    var n := |lines|;
    assert text' == text + ("\n" + line);
    forall k | 0 <= k < n
      ensures LineAt(lines'[k], at'[k], text', true) && NextStart(at', k) == at'[k] + |lines'[k]| + 1
    {
      LineAtStays(lines[k], at[k], text, line);
      if k < n - 1 {
        assert NextStart(at, k) == at[k] + |lines[k]| + 1;
      }
    }
    LastLineAt(text, line);
  }

  lemma {:induction false} LineAtStays(line: string, start: nat, text: string, more: string)
    ensures LineAt(line, start, text, true) ==> LineAt(line, start, text + "\n" + more, true)
    ensures LineAt(line, start, text, false) && start + |line| == |text| ==>
              LineAt(line, start, text + "\n" + more, true)
  {
    var text' := text + "\n" + more;
    if start + |line| <= |text| {
      assert text'[start..start + |line|] == text[start..start + |line|];
      assert text'[|text|] == '\n';
    }
  }

  lemma {:induction false} LastLineAt(text: string, line: string)
    ensures LineAt(line, |text| + 1, text + "\n" + line, false)
  {
  }

  /** Only a response to the request is received, a request of the server is refused, and all else is passed over. */
  predicate TextMeans(c: Codec, text: string, requestId: nat, memory: Memory, r: Outcome) {
    match c.json(text)
    case None => r == Failed(InvalidJson)
    case Some(m) =>
      var responds := m.hasId && m.id == Some(requestId) && (m.hasResult || m.hasError);
      && (r == Received(m, memory) <==> responds)
      && (r == Failed(ServerRequest) <==> !responds && m.hasId && m.hasMethod)
      && (r == Ended(memory) <==> !responds && !(m.hasId && m.hasMethod))
  }

  ghost predicate DataMean(c: Codec, data: seq<string>, requestId: nat, memory: Memory, r: Outcome) {
    if data == [] then r == Ended(memory)
    else exists at, text :: JoinedAt(data, at, text) && TextMeans(c, text, requestId, memory, r)
  }

  /** What the lines leave behind decides the answer. */
  ghost predicate LinesAnswer(c: Codec, lines: seq<string>, requestId: nat, memory: Memory, data: seq<string>,
                              after: Memory, r: Outcome) {
    && SomeData(lines, data) && IdAfter(lines, memory.lastEventId, after.lastEventId)
    && RetryAfter(lines, memory.retryMs, after.retryMs) && DataMean(c, data, requestId, after, r)
  }

  /** What an event means to a waiting request: its text, the lines of the text, and the values the lines give. */
  ghost predicate EventMeans(c: Codec, event: Bytes, requestId: nat, memory: Memory, r: Outcome) {
    match c.decode(event)
    case None => r == Failed(NotUtf8)
    case Some(text) =>
      if exists line :: line in Lines(text) && Refuses(line) then r == Failed(InvalidEventId)
      else exists data, after :: LinesAnswer(c, Lines(text), requestId, memory, data, after, r)
  }

  lemma {:induction false} DataDecide(c: Codec, data: seq<string>, requestId: nat, memory: Memory)
    requires data != []
    ensures var message := c.json(Join(data));
            DataMean(c, data, requestId, memory,
                     if message.None? then Failed(InvalidJson) else Judge(message.value, requestId, memory))
  {
    hide Join, JoinedAt;
    var at := JoinMeans(data);
    assert JoinedAt(data, at, Join(data));
  }

  lemma {:induction false} OutcomeMeans(c: Codec, event: Bytes, requestId: nat, memory: Memory)
    ensures EventMeans(c, event, requestId, memory, EventOutcome(c, event, requestId, memory))
  {
    hide AllFields, Join, Judge, Lines, Refuses, SomeData, IdAfter, RetryAfter, DataMean;
    var text := c.decode(event);
    if text.Some? {
      var lines := Lines(text.value);
      FieldsMean(memory, lines);
      var f := AllFields(Fields([], memory), lines);
      if f.Fields? {
        if f.data != [] {
          DataDecide(c, f.data, requestId, f.memory);
        }
        NoDataEnds(c, requestId, f.memory);
        assert LinesAnswer(c, lines, requestId, memory, f.data, f.memory, EventOutcome(c, event, requestId, memory));
      }
    }
  }

  lemma {:induction false} NoDataEnds(c: Codec, requestId: nat, memory: Memory)
    ensures DataMean(c, [], requestId, memory, Ended(memory))
  {
  }

  // ---- separators ----

  /** An empty line, with or without carriage returns. */
  predicate SeparatorAt(bytes: Bytes, i: nat, width: nat) {
    && i + width <= |bytes|
    && ((width == 2 && bytes[i] == 10 && bytes[i + 1] == 10)
        || (width == 4 && bytes[i] == 13 && bytes[i + 1] == 10 && bytes[i + 2] == 13 && bytes[i + 3] == 10))
  }

  ghost predicate FirstSeparator(bytes: Bytes, from: nat, end: nat, next: nat) {
    && from <= end <= next && SeparatorAt(bytes, end, next - end)
    && forall j: nat, width: nat :: from <= j < end ==> !SeparatorAt(bytes, j, width)
  }

  ghost predicate NoSeparator(bytes: Bytes, from: nat) {
    forall j: nat, width: nat :: from <= j ==> !SeparatorAt(bytes, j, width)
  }

  lemma {:induction false} SeparatorIsAt(bytes: Bytes, i: nat)
    ensures SeparatorAt(bytes, i, 2) <==> At(bytes, [LF, LF], i)
    ensures SeparatorAt(bytes, i, 4) <==> At(bytes, [CR, LF, CR, LF], i)
    ensures forall width: nat :: SeparatorAt(bytes, i, width) ==> width == 2 || width == 4
  {
    if i + 2 <= |bytes| {
      var two := bytes[i..i + 2];
      assert bytes[i] == two[0] && bytes[i + 1] == two[1];
    }
    if i + 4 <= |bytes| {
      var four := bytes[i..i + 4];
      assert bytes[i] == four[0] && bytes[i + 1] == four[1] && bytes[i + 2] == four[2] && bytes[i + 3] == four[3];
    }
  }

  /** The first separator of either kind ends the first event. */
  lemma {:induction false} BoundaryMeans(bytes: Bytes)
    ensures var b := Boundary(bytes);
            && (b.Some? ==> FirstSeparator(bytes, 0, b.value.0, b.value.1))
            && (b.None? ==> NoSeparator(bytes, 0))
  {
    forall i: nat
      ensures SeparatorAt(bytes, i, 2) <==> At(bytes, [LF, LF], i)
      ensures SeparatorAt(bytes, i, 4) <==> At(bytes, [CR, LF, CR, LF], i)
      ensures forall width: nat :: SeparatorAt(bytes, i, width) ==> width == 2 || width == 4
    {
      SeparatorIsAt(bytes, i);
    }
    var lf, crlf := Position(bytes, [LF, LF], 0), Position(bytes, [CR, LF, CR, LF], 0);
    hide Position, At, SeparatorAt;
  }

  lemma {:induction false} SeparatorMoves(bytes: Bytes, from: nat, i: nat, width: nat)
    requires from <= |bytes|
    ensures SeparatorAt(bytes[from..], i, width) <==> SeparatorAt(bytes, from + i, width)
  {
  }

  lemma {:induction false} BoundaryFrom(bytes: Bytes, from: nat)
    requires from <= |bytes|
    ensures var b := Boundary(bytes[from..]);
            && (b.Some? ==> FirstSeparator(bytes, from, from + b.value.0, from + b.value.1))
            && (b.None? ==> NoSeparator(bytes, from))
  {
    var b := Boundary(bytes[from..]);
    BoundaryMeans(bytes[from..]);
    hide Boundary, SeparatorAt;
    forall i: nat, width: nat
      ensures SeparatorAt(bytes[from..], i, width) <==> SeparatorAt(bytes, from + i, width)
    {
      SeparatorMoves(bytes, from, i, width);
    }
    forall j: nat, width: nat | from <= j
      ensures SeparatorAt(bytes, j, width) <==> SeparatorAt(bytes[from..], j - from, width)
    {
      SeparatorMoves(bytes, from, j - from, width);
    }
  }

  // ---- the stream ----

  /** One event from `start` is passed over: the next one starts at `next`, behind the separator. */
  ghost predicate PassesOver(c: Codec, stream: Bytes, requestId: nat, start: nat, memory: Memory, next: nat,
                             after: Memory) {
    exists end :: start <= end <= |stream| && FirstSeparator(stream, start, end, next)
                  && EventMeans(c, stream[start..end], requestId, memory, Ended(after))
  }

  /** The event from `start` decides, or it is the last. */
  ghost predicate DecidesAt(c: Codec, stream: Bytes, requestId: nat, start: nat, memory: Memory, r: Outcome) {
    || (exists end, next :: start <= end <= |stream| && FirstSeparator(stream, start, end, next) && !r.Ended?
                            && EventMeans(c, stream[start..end], requestId, memory, r))
    || (start < |stream| && NoSeparator(stream, start) && EventMeans(c, stream[start..], requestId, memory, r))
    || (start == |stream| && r == Ended(memory))
  }

  /** A stream is read event by event, each with what the ones before it left behind; the last one decides. */
  ghost predicate ReadsAs(c: Codec, stream: Bytes, requestId: nat, starts: seq<nat>, memories: seq<Memory>,
                          r: Outcome) {
    && |starts| == |memories| > 0
    && (forall k :: 0 < k < |starts| ==>
          PassesOver(c, stream, requestId, starts[k - 1], memories[k - 1], starts[k], memories[k]))
    && DecidesAt(c, stream, requestId, starts[|starts| - 1], memories[|starts| - 1], r)
  }

  lemma {:induction false} StreamFromMeans(c: Codec, stream: Bytes, from: nat, requestId: nat, memory: Memory)
    returns (starts: seq<nat>, memories: seq<Memory>)
    requires from <= |stream|
    ensures ReadsAs(c, stream, requestId, starts, memories, StreamOutcome(c, stream[from..], requestId, memory))
    ensures starts != [] && starts[0] == from && memories != [] && memories[0] == memory
    decreases |stream| - from
  {
    var here: Bytes := stream[from..];
    var r := StreamOutcome(c, here, requestId, memory);
    hide *;
    starts, memories := [from], [memory];
    if Boundary(here).None? {
      RestDecides(c, stream, from, requestId, memory);
    } else {
      var next, outcome := EventDecides(c, stream, from, requestId, memory);
      if outcome.Ended? {
        var laterStarts, laterMemories := StreamFromMeans(c, stream, next, requestId, outcome.memory);
        ReadsAsMore(c, stream, requestId, from, memory, laterStarts, laterMemories, r);
        starts, memories := starts + laterStarts, memories + laterMemories;
      }
    }
  }

  lemma {:induction false} RestDecides(c: Codec, stream: Bytes, from: nat, requestId: nat, memory: Memory)
    requires from <= |stream| && Boundary(stream[from..]).None?
    ensures ReadsAs(c, stream, requestId, [from], [memory], StreamOutcome(c, stream[from..], requestId, memory))
  {
    hide *;
    var here: Bytes := stream[from..];
    StreamUnfolds(c, here, requestId, memory);
    BoundaryFrom(stream, from);
    OutcomeMeans(c, here, requestId, memory);
    LastDecides(c, stream, requestId, from, memory, StreamOutcome(c, here, requestId, memory));
  }

  /** The rest of a stream starts with an event, whose outcome counts unless it is passed over. */
  lemma {:induction false} NextUnfolds(c: Codec, stream: Bytes, from: nat, requestId: nat, memory: Memory)
    returns (end: nat, next: nat)
    requires from <= |stream| && Boundary(stream[from..]).Some?
    ensures from <= end < next <= |stream| && FirstSeparator(stream, from, end, next)
    ensures var outcome := EventOutcome(c, stream[from..end], requestId, memory);
            StreamOutcome(c, stream[from..], requestId, memory) ==
              if outcome.Ended? then StreamOutcome(c, stream[next..], requestId, outcome.memory) else outcome
  {
    hide *;
    var here: Bytes := stream[from..];
    StreamUnfolds(c, here, requestId, memory);
    BoundaryFrom(stream, from);
    end, next := from + Boundary(here).value.0, from + Boundary(here).value.1;
    SliceOfRest(stream, from, end - from, next - from);
  }

  lemma {:induction false} EventDecides(c: Codec, stream: Bytes, from: nat, requestId: nat, memory: Memory)
    returns (next: nat, outcome: Outcome)
    requires from <= |stream| && Boundary(stream[from..]).Some?
    ensures from < next <= |stream|
    ensures var r := StreamOutcome(c, stream[from..], requestId, memory);
            if outcome.Ended? then
              && PassesOver(c, stream, requestId, from, memory, next, outcome.memory)
              && r == StreamOutcome(c, stream[next..], requestId, outcome.memory)
            else ReadsAs(c, stream, requestId, [from], [memory], r)
  {
    hide *;
    var end;
    end, next := NextUnfolds(c, stream, from, requestId, memory);
    var event: Bytes := stream[from..end];
    OutcomeMeans(c, event, requestId, memory);
    outcome := EventOutcome(c, event, requestId, memory);
    if outcome.Ended? {
      PassedOver(c, stream, requestId, from, memory, end, next, outcome.memory);
    } else {
      Decided(c, stream, requestId, from, memory, end, next, outcome);
    }
  }

  lemma {:induction false} SliceOfRest(stream: Bytes, from: nat, end: nat, next: nat)
    requires from <= |stream| && end <= next <= |stream| - from
    ensures stream[from..][..end] == stream[from..from + end] && stream[from..][next..] == stream[from + next..]
  {
  }

  lemma {:induction false} Decided(c: Codec, stream: Bytes, requestId: nat, start: nat, memory: Memory, end: nat,
                                   next: nat, r: Outcome)
    requires start <= end <= |stream| && FirstSeparator(stream, start, end, next) && !r.Ended?
    requires EventMeans(c, stream[start..end], requestId, memory, r)
    ensures ReadsAs(c, stream, requestId, [start], [memory], r)
  {
    hide FirstSeparator, EventMeans, NoSeparator, PassesOver;
  }

  lemma {:induction false} LastDecides(c: Codec, stream: Bytes, requestId: nat, start: nat, memory: Memory, r: Outcome)
    requires start <= |stream| && NoSeparator(stream, start)
    requires if start == |stream| then r == Ended(memory) else EventMeans(c, stream[start..], requestId, memory, r)
    ensures ReadsAs(c, stream, requestId, [start], [memory], r)
  {
    hide FirstSeparator, EventMeans, NoSeparator, PassesOver;
  }

  lemma {:induction false} PassedOver(c: Codec, stream: Bytes, requestId: nat, start: nat, memory: Memory, end: nat,
                                      next: nat, after: Memory)
    requires start <= end <= |stream| && FirstSeparator(stream, start, end, next)
    requires EventMeans(c, stream[start..end], requestId, memory, Ended(after))
    ensures PassesOver(c, stream, requestId, start, memory, next, after)
  {
    hide FirstSeparator, EventMeans;
  }

  lemma {:induction false} ReadsAsMore(c: Codec, stream: Bytes, requestId: nat, start: nat, memory: Memory,
                                       starts: seq<nat>, memories: seq<Memory>, r: Outcome)
    requires ReadsAs(c, stream, requestId, starts, memories, r)
    requires starts != [] && memories != []
    requires PassesOver(c, stream, requestId, start, memory, starts[0], memories[0])
    ensures ReadsAs(c, stream, requestId, [start] + starts, [memory] + memories, r)
  {
    hide PassesOver, DecidesAt;
    var starts', memories' := [start] + starts, [memory] + memories;
    forall k | 0 < k < |starts'|
      ensures PassesOver(c, stream, requestId, starts'[k - 1], memories'[k - 1], starts'[k], memories'[k])
    {
      if k > 1 {
        var j := k - 1;
        assert PassesOver(c, stream, requestId, starts[j - 1], memories[j - 1], starts[j], memories[j]);
      }
    }
  }

  lemma {:induction false} StreamUnfolds(c: Codec, stream: Bytes, requestId: nat, memory: Memory)
    ensures var b, r := Boundary(stream), StreamOutcome(c, stream, requestId, memory);
            && (b.None? && stream == [] ==> r == Ended(memory))
            && (b.None? && stream != [] ==> r == EventOutcome(c, stream, requestId, memory))
            && (b.Some? ==>
                  && b.value.0 < b.value.1 <= |stream|
                  && var outcome := EventOutcome(c, stream[..b.value.0], requestId, memory);
                  r == if outcome.Ended? then StreamOutcome(c, stream[b.value.1..], requestId, outcome.memory)
                       else outcome)
  {
    hide EventOutcome, Boundary;
    if Boundary(stream).Some? {
      BoundaryWithin(stream);
    }
  }

  /** What a whole stream means. */
  lemma {:induction false} StreamMeans(c: Codec, stream: Bytes, requestId: nat)
    ensures exists starts, memories ::
              && starts != [] && memories != []
              && ReadsAs(c, stream, requestId, starts, memories,
                         StreamOutcome(c, stream, requestId, Memory(None, 0)))
              && starts[0] == 0 && memories[0] == Memory(None, 0)
  {
    hide ReadsAs, StreamOutcome;
    assert stream[0..] == stream;
    var starts, memories := StreamFromMeans(c, stream, 0, requestId, Memory(None, 0));
  }
}
