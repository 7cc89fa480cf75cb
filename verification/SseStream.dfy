/** The event-stream reader of the MCP HTTP client: events cut out of a byte stream that arrives in arbitrary chunks. */
module SseStream {
  import opened Machine
  import opened Outcomes
  import opened TextLines

  const LIMIT: nat := 8 * 1024 * 1024

  /** What the reader asks of a JSON message. */
  datatype Message = Message(hasId: bool, id: Option<nat>, hasResult: bool, hasError: bool, hasMethod: bool,
                             text: string)

  /** UTF-8 decoding and JSON parsing. */
  datatype Codec = Codec(decode: Bytes -> Option<string>, json: string -> Option<Message>)

  /** What is remembered from event to event. */
  datatype Memory = Memory(lastEventId: Option<string>, retryMs: nat)

  datatype SseError = NotUtf8 | InvalidEventId | InvalidJson | ServerRequest | TooLong

  /** What one event, or a whole stream, leads to. */
  datatype Outcome = Received(message: Message, memory: Memory) | Ended(memory: Memory) | Failed(error: SseError)

  // One event

  function FieldName(line: string): string {
    line[..IndexOf(line, ':')]
  }

  /** What follows the first colon, without one leading space. */
  function FieldValue(line: string): string {
    var n := IndexOf(line, ':');
    if n == |line| then ""
    else if n + 1 < |line| && line[n + 1] == ' ' then line[n + 2..]
    else line[n + 1..]
  }

  function Digits(s: string): Option<nat> {
    if s == "" then Some(0)
    else
      var front := Digits(s[..|s| - 1]);
      var c := s[|s| - 1];
      if front.None? || !('0' <= c <= '9') then None else Some(10 * front.value + (c - '0') as nat)
  }

  /** Decimal digits, with an optional plus sign, that fit 64 bits. */
  function ParseU64(s: string): Option<nat> {
    var digits := if |s| > 1 && s[0] == '+' then s[1..] else s;
    if digits == "" || Digits(digits).None? || Digits(digits).value > U64_MAX then None else Digits(digits)
  }

  predicate ValidId(value: string) {
    |value| <= 1024 && forall i :: 0 <= i < |value| ==> '!' <= value[i] <= '~'
  }

  /** The data lines so far, and the memory; or the reason to give up. */
  datatype Fields = Fields(data: seq<string>, memory: Memory) | BadFields

  function Field(f: Fields, line: string): Fields {
    if f.BadFields? || (line != "" && line[0] == ':') then f
    else
      var value := FieldValue(line);
      if FieldName(line) == "data" then f.(data := f.data + [value])
      else if FieldName(line) == "id" && '\0' !in value then
        if value == "" then f.(memory := f.memory.(lastEventId := None))
        else if !ValidId(value) then BadFields
        else f.(memory := f.memory.(lastEventId := Some(value)))
      else if FieldName(line) == "retry" && ParseU64(value).Some? then
        f.(memory := f.memory.(retryMs := if ParseU64(value).value < 5000 then ParseU64(value).value else 5000))
      else f
  }

  function AllFields(f: Fields, lines: seq<string>): Fields {
    if lines == [] then f else Field(AllFields(f, lines[..|lines| - 1]), lines[|lines| - 1])
  }

  function Join(lines: seq<string>): string {
    if lines == [] then ""
    else if |lines| == 1 then lines[0]
    else Join(lines[..|lines| - 1]) + "\n" + lines[|lines| - 1]
  }

  /** What a message means to the request that waits for it. */
  function Judge(message: Message, requestId: nat, memory: Memory): Outcome {
    if message.hasId && message.id == Some(requestId) && (message.hasResult || message.hasError) then
      Received(message, memory)
    else if message.hasId && message.hasMethod then Failed(ServerRequest)
    else Ended(memory)
  }

  function EventOutcome(c: Codec, event: Bytes, requestId: nat, memory: Memory): Outcome {
    var text := c.decode(event);
    if text.None? then Failed(NotUtf8)
    else
      var fields := AllFields(Fields([], memory), Lines(text.value));
      if fields.BadFields? then Failed(InvalidEventId)
      else if fields.data == [] then Ended(fields.memory)
      else
        var message := c.json(Join(fields.data));
        if message.None? then Failed(InvalidJson) else Judge(message.value, requestId, fields.memory)
  }

  /** One event, line by line. */
  method ParseEvent(c: Codec, event: Bytes, requestId: nat, memory: Memory) returns (r: Outcome)
    ensures r == EventOutcome(c, event, requestId, memory)
  {
    hide Field;
    var text := c.decode(event);
    if text.None? {
      return Failed(NotUtf8);
    }
    var lines := Lines(text.value);
    var fields := Fields([], memory);
    for i := 0 to |lines|
      invariant fields.Fields? && fields == AllFields(Fields([], memory), lines[..i])
    {
      assert lines[..i + 1][..i] == lines[..i];
      fields := Field(fields, lines[i]);
      if fields.BadFields? {
        BadFieldsStay(Fields([], memory), lines, i + 1);
        return Failed(InvalidEventId);
      }
    }
    assert lines[..|lines|] == lines;
    if fields.data == [] {
      return Ended(fields.memory);
    }
    var message := c.json(Join(fields.data));
    if message.None? {
      return Failed(InvalidJson);
    }
    r := Judge(message.value, requestId, fields.memory);
  }

  lemma {:induction false} BadFieldsStay(f: Fields, lines: seq<string>, n: nat)
    requires n <= |lines| && AllFields(f, lines[..n]).BadFields?
    ensures AllFields(f, lines).BadFields?
  {
    if n == |lines| {
      assert lines[..n] == lines;
    } else {
      assert lines[..|lines| - 1][..n] == lines[..n];
      BadFieldsStay(f, lines[..|lines| - 1], n);
    }
  }

  // Boundaries

  predicate At(bytes: Bytes, pattern: Bytes, i: int) {
    0 <= i && i + |pattern| <= |bytes| && bytes[i..i + |pattern|] == pattern
  }

  /** The first window equal to the pattern. */
  function Position(bytes: Bytes, pattern: Bytes, from: nat): (r: Option<nat>)
    requires from <= |bytes|
    ensures r.Some? ==>
              && from <= r.value && At(bytes, pattern, r.value)
              && forall j :: from <= j < r.value ==> !At(bytes, pattern, j)
    ensures r.None? ==> forall j :: from <= j ==> !At(bytes, pattern, j)
    decreases |bytes| - from
  {
    if At(bytes, pattern, from) then Some(from)
    else if from == |bytes| then None
    else Position(bytes, pattern, from + 1)
  }

  /** The end of the first event and the end of its separator. */
  function Boundary(bytes: Bytes): Option<(nat, nat)> {
    var lf := Position(bytes, [LF, LF], 0);
    var crlf := Position(bytes, [CR, LF, CR, LF], 0);
    if lf.Some? && (crlf.None? || lf.value <= crlf.value) then Some((lf.value, lf.value + 2))
    else if crlf.Some? then Some((crlf.value, crlf.value + 4))
    else None
  }

  lemma {:induction false} AtStays(bytes: Bytes, more: Bytes, pattern: Bytes, i: nat)
    requires i + |pattern| <= |bytes|
    ensures At(bytes, pattern, i) <==> At(bytes + more, pattern, i)
  {
    assert (bytes + more)[i..i + |pattern|] == bytes[i..i + |pattern|];
  }

  /** A separator of one kind is not completed in front of a separator of the other kind. */
  lemma {:induction false} NoEarlierCrlf(bytes: Bytes, lf: nat, crlf: nat)
    requires At(bytes, [LF, LF], lf) && At(bytes, [CR, LF, CR, LF], crlf) && crlf < lf
    ensures crlf + 4 <= lf + 2
  {
    var four, two := bytes[crlf..crlf + 4], bytes[lf..lf + 2];
    assert bytes[crlf + 1] == four[1] && bytes[crlf + 2] == four[2];
    assert bytes[lf] == two[0] && bytes[lf + 1] == two[1];
  }

  /** The first window stays the first; a window that is new reaches beyond the old end. */
  lemma {:induction false} PositionIsStable(bytes: Bytes, more: Bytes, pattern: Bytes)
    ensures var before := Position(bytes, pattern, 0); var after := Position(bytes + more, pattern, 0);
            && (before.Some? ==> after == before)
            && (before.None? && after.Some? ==> after.value + |pattern| > |bytes|)
  {
    var before, after := Position(bytes, pattern, 0), Position(bytes + more, pattern, 0);
    hide Position, At;
    AtIsWithin(bytes, pattern);
    forall i: nat | i + |pattern| <= |bytes|
      ensures At(bytes, pattern, i) <==> At(bytes + more, pattern, i)
    {
      AtStays(bytes, more, pattern, i);
    }
  }

  lemma {:induction false} AtIsWithin(bytes: Bytes, pattern: Bytes)
    ensures forall i :: At(bytes, pattern, i) ==> i + |pattern| <= |bytes|
  {
  }

  /** A boundary, once seen, stays where it is whatever arrives later. */
  lemma {:induction false} BoundaryIsStable(bytes: Bytes, more: Bytes)
    requires Boundary(bytes).Some?
    ensures Boundary(bytes + more) == Boundary(bytes)
  {
    var two, four := [LF, LF], [CR, LF, CR, LF];
    PositionIsStable(bytes, more, two);
    PositionIsStable(bytes, more, four);
    var lf, crlf := Position(bytes, two, 0), Position(bytes, four, 0);
    var lf', crlf' := Position(bytes + more, two, 0), Position(bytes + more, four, 0);
    hide Position, At;
    AtIsWithin(bytes, two);
    AtIsWithin(bytes, four);
    if lf.Some? && crlf'.Some? && crlf'.value < lf.value {
      NoEarlierCrlf(bytes + more, lf.value, crlf'.value);
    }
  }

  lemma {:induction false} BoundaryWithin(bytes: Bytes)
    requires Boundary(bytes).Some?
    ensures Boundary(bytes).value.0 < Boundary(bytes).value.1 <= |bytes|
  {
  }

  // The stream

  /** What a stream means, without its chunks: event after event, and the rest as a last event. */
  function StreamOutcome(c: Codec, stream: Bytes, requestId: nat, memory: Memory): Outcome
    decreases |stream|
  {
    var boundary := Boundary(stream);
    if boundary.None? then if stream == [] then Ended(memory) else EventOutcome(c, stream, requestId, memory)
    else
      BoundaryWithin(stream);
      var outcome := EventOutcome(c, stream[..boundary.value.0], requestId, memory);
      if outcome.Ended? then StreamOutcome(c, stream[boundary.value.1..], requestId, outcome.memory) else outcome
  }

  /** Reads chunk by chunk and parses every event as soon as it is complete. For a stream within the size limit the
      result is that of the whole stream, however it was cut; for a longer one it is that or the size error. */
  method ParseStream(c: Codec, chunks: seq<Bytes>, requestId: nat) returns (r: Outcome)
    ensures r == Failed(TooLong) || r == StreamOutcome(c, Flat(chunks), requestId, Memory(None, 0))
    ensures |Flat(chunks)| <= LIMIT ==> r == StreamOutcome(c, Flat(chunks), requestId, Memory(None, 0))
  {
    hide Boundary, EventOutcome, StreamOutcome;
    var pending: Bytes := [];
    var total: nat := 0;
    var memory := Memory(None, 0);
    assert chunks[0..] == chunks && pending + Flat(chunks) == Flat(chunks);
    for i := 0 to |chunks|
      invariant Boundary(pending).None? || pending == []
      invariant total + |Flat(chunks[i..])| == |Flat(chunks)|
      invariant StreamOutcome(c, pending + Flat(chunks[i..]), requestId, memory)
             == StreamOutcome(c, Flat(chunks), requestId, Memory(None, 0))
    {
      assert chunks[i..][0] == chunks[i] && chunks[i..][1..] == chunks[i + 1..];
      ghost var rest := Flat(chunks[i + 1..]);
      assert pending + (chunks[i] + rest) == (pending + chunks[i]) + rest;
      total := total + |chunks[i]|;
      if total > LIMIT {
        return Failed(TooLong);
      }
      pending := pending + chunks[i];
      var outcome: Outcome;
      outcome, pending := Drain(c, pending, requestId, memory, rest);
      if !outcome.Ended? {
        return outcome;
      }
      memory := outcome.memory;
    }
    assert chunks[|chunks|..] == [] && pending + [] == pending;
    if pending != [] {
      LastEvent(c, pending, requestId, memory);
      r := ParseEvent(c, pending, requestId, memory);
    } else {
      NoEvent(c, requestId, memory);
      r := Ended(memory);
    }
  }

  /** Parses the complete events of the pending bytes; `rest` is what has not arrived yet. */
  method Drain(c: Codec, bytes: Bytes, requestId: nat, memory: Memory, ghost rest: Bytes)
    returns (r: Outcome, pending: Bytes)
    ensures r.Ended? ==> Boundary(pending).None?
    ensures r.Ended? ==>
              StreamOutcome(c, pending + rest, requestId, r.memory) == StreamOutcome(c, bytes + rest, requestId, memory)
    ensures !r.Ended? ==> r == StreamOutcome(c, bytes + rest, requestId, memory)
  {
    hide Boundary, EventOutcome, StreamOutcome;
    pending := bytes;
    var remembered := memory;
    while Boundary(pending).Some?
      invariant StreamOutcome(c, pending + rest, requestId, remembered) ==
                  StreamOutcome(c, bytes + rest, requestId, memory)
      decreases |pending|
    {
      var (end, next) := Boundary(pending).value;
      BoundaryWithin(pending);
      NextEvent(c, pending, rest, requestId, remembered);
      r := ParseEvent(c, pending[..end], requestId, remembered);
      if !r.Ended? {
        return;
      }
      remembered := r.memory;
      pending := pending[next..];
    }
    r := Ended(remembered);
  }

  lemma {:induction false} NextEvent(c: Codec, pending: Bytes, rest: Bytes, requestId: nat, memory: Memory)
    requires Boundary(pending).Some?
    ensures var (end, next) := Boundary(pending).value;
            && end <= next <= |pending|
            && var outcome := EventOutcome(c, pending[..end], requestId, memory);
            StreamOutcome(c, pending + rest, requestId, memory)
            == if outcome.Ended? then StreamOutcome(c, pending[next..] + rest, requestId, outcome.memory) else outcome
  {
    hide EventOutcome, Boundary;
    BoundaryIsStable(pending, rest);
    BoundaryWithin(pending);
    var (end, next) := Boundary(pending).value;
    assert (pending + rest)[..end] == pending[..end] && (pending + rest)[next..] == pending[next..] + rest;
  }

  lemma {:induction false} LastEvent(c: Codec, pending: Bytes, requestId: nat, memory: Memory)
    requires Boundary(pending).None? && pending != []
    ensures StreamOutcome(c, pending, requestId, memory) == EventOutcome(c, pending, requestId, memory)
  {
    hide EventOutcome, Boundary;
  }

  lemma {:induction false} NoEvent(c: Codec, requestId: nat, memory: Memory)
    ensures StreamOutcome(c, [], requestId, memory) == Ended(memory)
  {
  }
}
