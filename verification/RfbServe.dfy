/** The RFB client-message loop over WebSocket frames of any sizes. */
module RfbServe {
  import opened Machine
  import opened Outcomes
  import opened RfbMessages

  datatype Frame = Binary(bytes: Bytes) | Ping | Pong | Close | Text

  /** The bytes that arrive before the transport ends or is refused. */
  function Payload(frames: seq<Frame>): Bytes {
    if frames == [] || frames[0].Close? || frames[0].Text? then []
    else (if frames[0].Binary? then frames[0].bytes else []) + Payload(frames[1..])
  }

  /** Why no more bytes arrive. */
  function End(frames: seq<Frame>): RfbError {
    if frames == [] || frames[0].Close? then Closed
    else if frames[0].Text? then NotBinary
    else End(frames[1..])
  }

  /** Frames of these sizes never overfill the buffer while reads of these lengths are served: a frame is fetched only
      while a read lacks bytes, and must fit with what is pending then. */
  predicate Within(pending: nat, frames: seq<Frame>, lengths: seq<nat>)
    decreases |frames| + |lengths|
  {
    if lengths == [] then true
    else if pending >= lengths[0] then Within(pending - lengths[0], frames, lengths[1..])
    else if frames == [] || frames[0].Close? || frames[0].Text? then true
    else if frames[0].Binary? then
      pending + |frames[0].bytes| <= MAX_CLIENT_MESSAGE && Within(pending + |frames[0].bytes|, frames[1..], lengths)
    else Within(pending, frames[1..], lengths)
  }

  /** The reads that follow the type byte of a message. */
  function BodyReads(m: ClientMessage): seq<nat> {
    match m
    case SetPixelFormat(_) => [19]
    case SetEncodings(_, codes) => [3] + seq(|codes|, _ => 4)
    case UpdateRequest(_, _, _, _, _) => [9]
    case KeyEvent(_, _, _, _) => [7]
    case PointerEvent(_, _, _) => [5]
    case CutText(_, text) => [7, |text|]
    case ExtendedCutText(_, extended) => [7, |extended|]
  }

  /** The reads that one message takes. */
  function ReadsOf(m: ClientMessage): seq<nat> {
    [1] + BodyReads(m)
  }

  /** The reads of a list of messages, and the read that meets the end. */
  function ReadsOfAll(ms: seq<ClientMessage>): seq<nat> {
    if ms == [] then [1] else ReadsOf(ms[0]) + ReadsOfAll(ms[1..])
  }

  lemma {:induction false} WithinFirst(pending: nat, frames: seq<Frame>, length: nat, later: seq<nat>)
    ensures Within(pending, frames, [length] + later) <==>
            if pending >= length then Within(pending - length, frames, later)
            else if frames == [] || frames[0].Close? || frames[0].Text? then true
            else if frames[0].Binary? then
              pending + |frames[0].bytes| <= MAX_CLIENT_MESSAGE
              && Within(pending + |frames[0].bytes|, frames[1..], [length] + later)
            else Within(pending, frames[1..], [length] + later)
  {
    assert ([length] + later)[1..] == later;
  }

  /** Frames that leave room for the longest read never overfill the buffer. */
  lemma {:induction false} SmallFramesStayWithin(pending: nat, frames: seq<Frame>, lengths: seq<nat>, longest: nat)
    requires forall i :: 0 <= i < |lengths| ==> lengths[i] <= longest
    requires forall i :: 0 <= i < |frames| && frames[i].Binary? ==> |frames[i].bytes| + longest <= MAX_CLIENT_MESSAGE
    ensures Within(pending, frames, lengths)
    decreases |frames| + |lengths|
  {
    if lengths != [] {
      if pending >= lengths[0] {
        SmallFramesStayWithin(pending - lengths[0], frames, lengths[1..], longest);
      } else if frames != [] {
        var more := if frames[0].Binary? then |frames[0].bytes| else 0;
        SmallFramesStayWithin(pending + more, frames[1..], lengths, longest);
      }
    }
  }

  class WsBytes {
    var frames: seq<Frame>
    var pending: Bytes

    constructor (arriving: seq<Frame>)
      ensures frames == arriving && pending == []
    {
      frames, pending := arriving, [];
    }

    ghost function Stream(): Bytes
      reads this
    {
      pending + Payload(frames)
    }

    /** Exactly `length` bytes of the stream, or the reason why they do not come. `later` are the reads that follow. */
    method ReadExact(length: nat, ghost later: seq<nat>) returns (r: Result<Bytes, RfbError>)
      modifies this
      ensures End(frames) == old(End(frames))
      ensures r.Ok? ==>
                && length <= |old(Stream())| && r.value == old(Stream())[..length]
                && Stream() == old(Stream())[length..]
      ensures r.Err? ==> r.error == BufferExceeded || (r.error == old(End(frames)) && |old(Stream())| < length)
      ensures old(Within(|pending|, frames, [length] + later)) ==>
                r != Err(BufferExceeded) && (r.Ok? ==> Within(|pending|, frames, later))
    {
      ghost var stream := Stream();
      ghost var fits := Within(|pending|, frames, [length] + later);
      while |pending| < length
        invariant Stream() == stream && End(frames) == old(End(frames))
        invariant fits ==> Within(|pending|, frames, [length] + later)
        decreases |frames|
      {
        WithinFirst(|pending|, frames, length, later);
        if frames == [] {
          return Err(Closed);
        }
        var frame := frames[0];
        match frame {
          case Binary(bytes) =>
            if |pending| + |bytes| > MAX_CLIENT_MESSAGE {
              return Err(BufferExceeded);
            }
            assert pending + (bytes + Payload(frames[1..])) == (pending + bytes) + Payload(frames[1..]);
            pending := pending + bytes;
          case Ping =>
          case Pong =>
          case Close =>
            return Err(Closed);
          case Text =>
            return Err(NotBinary);
        }
        frames := frames[1..];
      }
      WithinFirst(|pending|, frames, length, later);
      assert stream[..length] == pending[..length];
      r := Ok(pending[..length]);
      pending := pending[length..];
    }

    /** The rest of a SetEncodings message whose type byte has been read from the stream `s`. */
    method ReadEncodings(ghost s: Bytes, ghost later: seq<nat>) returns (r: Result<ClientMessage, RfbError>)
      requires s != [] && s[0] == 2 && Stream() == s[1..]
      modifies this
      ensures End(frames) == old(End(frames))
      ensures Answers(DecodeEncodings(s), s, Stream(), old(End(frames)), r)
      ensures DecodeEncodings(s).Got? && old(Within(|pending|, frames, [3] + Fours(CodeCount(s), later))) ==>
                r != Err(BufferExceeded) && Within(|pending|, frames, later)
    {
      hide Within, FromBe16, FromBe32, End, Payload, DecodeOne;
      ghost var end := End(frames);
      ghost var fits := Within(|pending|, frames, [3] + Fours(CodeCount(s), later));
      var header := ReadExact(3, Fours(CodeCount(s), later));
      if header.Err? {
        return Err(header.error);
      }
      assert header.value[1..3] == s[2..4] && Stream() == s[4..];
      var count: nat := FromBe16(header.value[1..3]);
      if count > MAX_ENCODINGS {
        return Err(TooManyEncodings);
      }
      var codes: seq<I32> := [];
      for k := 0 to count
        invariant 4 + 4 * k <= |s| && Stream() == s[4 + 4 * k..] && End(frames) == end
        invariant codes == DecodeCodes(s[4..], k)
        invariant DecodeEncodings(s).Got? && fits ==> Within(|pending|, frames, Fours(count - k, later))
      {
        FoursFirst(count - k, later);
        var bytes := ReadExact(4, Fours(count - k - 1, later));
        if bytes.Err? {
          return Err(bytes.error);
        }
        CodeBytes(s, k, bytes.value);
        codes := codes + [Signed(FromBe32(bytes.value))];
      }
      assert Fours(0, later) == later;
      r := Ok(SetEncodings(header.value[0], codes));
    }

    /** The rest of a cut-text message whose type byte has been read from the stream `s`. */
    method ReadCutText(ghost s: Bytes, ghost later: seq<nat>) returns (r: Result<ClientMessage, RfbError>)
      requires s != [] && s[0] == 6 && Stream() == s[1..]
      modifies this
      ensures End(frames) == old(End(frames))
      ensures Answers(DecodeOne(s), s, Stream(), old(End(frames)), r)
      ensures DecodeOne(s).Got? && old(Within(|pending|, frames, BodyReads(DecodeOne(s).message) + later)) ==>
                r != Err(BufferExceeded) && Within(|pending|, frames, later)
    {
      hide Within, FromBe32, End, Payload, DecodeEncodings;
      ghost var size := if DecodeCutText(s).Got? then DecodeCutText(s).size - 8 else 0;
      assert [7, size] + later == [7] + ([size] + later);
      var header := ReadExact(7, [size] + later);
      if header.Err? {
        return Err(header.error);
      }
      assert header.value[3..7] == s[4..8] && header.value[..3] == s[1..4] && Stream() == s[8..];
      var length: int := Signed(FromBe32(header.value[3..7]));
      if length < 0 {
        if -length > MAX_CLIENT_MESSAGE {
          return Err(ExtendedTooLong);
        }
        var body := ReadExact(-length, later);
        if body.Err? {
          return Err(body.error);
        }
        return Ok(ExtendedCutText(header.value[..3], body.value));
      }
      if length > MAX_CLIPBOARD_BYTES {
        return Err(ClipboardTooLong);
      }
      var text := ReadExact(length, later);
      if text.Err? {
        return Err(text.error);
      }
      r := Ok(CutText(header.value[..3], text.value));
    }

    /** The rest of a message of fixed length whose type byte has been read from the stream `s`. */
    method ReadFixed(kind: Byte, length: nat, ghost s: Bytes, ghost later: seq<nat>)
      returns (r: Result<Bytes, RfbError>)
      requires s != [] && s[0] == kind && Stream() == s[1..]
      modifies this
      ensures End(frames) == old(End(frames))
      ensures r.Ok? ==> 1 + length <= |s| && [kind] + r.value == s[..1 + length] && Stream() == s[1 + length..]
      ensures r.Err? ==> r.error == BufferExceeded || (r.error == old(End(frames)) && |s| < 1 + length)
      ensures old(Within(|pending|, frames, [length] + later)) ==>
                r != Err(BufferExceeded) && (r.Ok? ==> Within(|pending|, frames, later))
    {
      hide Within, End, Payload;
      r := ReadExact(length, later);
    }

    /** One client message: the reference decoder's answer on the bytes still to come, whatever frames carry them. */
    method ReadMessage(ghost later: seq<nat>) returns (r: Result<ClientMessage, RfbError>)
      modifies this
      ensures End(frames) == old(End(frames))
      ensures Answers(DecodeOne(old(Stream())), old(Stream()), Stream(), old(End(frames)), r)
      ensures DecodeOne(old(Stream())).Got?
              && old(Within(|pending|, frames, ReadsOf(DecodeOne(Stream()).message) + later)) ==>
                r != Err(BufferExceeded) && Within(|pending|, frames, later)
      ensures old(Stream()) == [] && old(Within(|pending|, frames, [1])) ==> r != Err(BufferExceeded)
    {
      hide Within, End, Payload, DecodeOne, BodyReads;
      ghost var s := Stream();
      ghost var p := DecodeOne(s);
      ghost var rest := if p.Got? then BodyReads(p.message) + later else [];
      assert [1] + [] == [1];
      assert p.Got? ==> ReadsOf(p.message) + later == [1] + rest;
      OtherKinds(s);
      var kind := ReadExact(1, rest);
      if kind.Err? {
        return Err(kind.error);
      }
      match kind.value[0] {
        case 0 =>
          r := ReadPixelFormat(s, later);
        case 2 =>
          EncodingsFirst(s, later);
          r := ReadEncodings(s, later);
        case 3 =>
          r := ReadUpdateRequest(s, later);
        case 4 =>
          r := ReadKey(s, later);
        case 5 =>
          r := ReadPointer(s, later);
        case 6 =>
          r := ReadCutText(s, later);
        case other =>
          r := Err(UnsupportedType(other));
      }
    }

    method ReadPixelFormat(ghost s: Bytes, ghost later: seq<nat>) returns (r: Result<ClientMessage, RfbError>)
      requires s != [] && s[0] == 0 && Stream() == s[1..]
      modifies this
      ensures End(frames) == old(End(frames))
      ensures Answers(DecodeOne(s), s, Stream(), old(End(frames)), r)
      ensures DecodeOne(s).Got? && old(Within(|pending|, frames, BodyReads(DecodeOne(s).message) + later)) ==>
                r != Err(BufferExceeded) && Within(|pending|, frames, later)
    {
      hide Within, End, Payload, DecodeEncodings, DecodeCutText;
      var body := ReadFixed(0, 19, s, later);
      if body.Err? {
        return Err(body.error);
      }
      assert s[1..20] == s[..20][1..] == body.value;
      r := Ok(SetPixelFormat(body.value));
    }

    method ReadKey(ghost s: Bytes, ghost later: seq<nat>) returns (r: Result<ClientMessage, RfbError>)
      requires s != [] && s[0] == 4 && Stream() == s[1..]
      modifies this
      ensures End(frames) == old(End(frames))
      ensures Answers(DecodeOne(s), s, Stream(), old(End(frames)), r)
      ensures DecodeOne(s).Got? && old(Within(|pending|, frames, BodyReads(DecodeOne(s).message) + later)) ==>
                r != Err(BufferExceeded) && Within(|pending|, frames, later)
    {
      hide Within, FromBe32, End, Payload, DecodeEncodings, DecodeCutText;
      var body := ReadFixed(4, 7, s, later);
      if body.Err? {
        return Err(body.error);
      }
      var b := [4 as Byte] + body.value;
      assert s[4..8] == b[4..8] == body.value[3..7];
      r := Ok(KeyEvent(b[1], b[2], b[3], FromBe32(body.value[3..7])));
    }

    method ReadPointer(ghost s: Bytes, ghost later: seq<nat>) returns (r: Result<ClientMessage, RfbError>)
      requires s != [] && s[0] == 5 && Stream() == s[1..]
      modifies this
      ensures End(frames) == old(End(frames))
      ensures Answers(DecodeOne(s), s, Stream(), old(End(frames)), r)
      ensures DecodeOne(s).Got? && old(Within(|pending|, frames, BodyReads(DecodeOne(s).message) + later)) ==>
                r != Err(BufferExceeded) && Within(|pending|, frames, later)
    {
      hide Within, FromBe16, End, Payload, DecodeEncodings, DecodeCutText;
      var body := ReadFixed(5, 5, s, later);
      if body.Err? {
        return Err(body.error);
      }
      var b := [5 as Byte] + body.value;
      assert s[2..4] == b[2..4] == body.value[1..3] && s[4..6] == b[4..6] == body.value[3..5];
      r := Ok(PointerEvent(b[1], FromBe16(body.value[1..3]), FromBe16(body.value[3..5])));
    }

    method ReadUpdateRequest(ghost s: Bytes, ghost later: seq<nat>) returns (r: Result<ClientMessage, RfbError>)
      requires s != [] && s[0] == 3 && Stream() == s[1..]
      modifies this
      ensures End(frames) == old(End(frames))
      ensures Answers(DecodeOne(s), s, Stream(), old(End(frames)), r)
      ensures DecodeOne(s).Got? && old(Within(|pending|, frames, BodyReads(DecodeOne(s).message) + later)) ==>
                r != Err(BufferExceeded) && Within(|pending|, frames, later)
    {
      hide Within, FromBe16, End, Payload, DecodeEncodings, DecodeCutText;
      var body := ReadFixed(3, 9, s, later);
      if body.Err? {
        return Err(body.error);
      }
      var b := [3 as Byte] + body.value;
      assert s[2..4] == b[2..4] == body.value[1..3] && s[4..6] == b[4..6] == body.value[3..5];
      assert s[6..8] == b[6..8] == body.value[5..7] && s[8..10] == b[8..10] == body.value[7..9];
      r := Ok(UpdateRequest(b[1], FromBe16(body.value[1..3]), FromBe16(body.value[3..5]), FromBe16(body.value[5..7]),
                            FromBe16(body.value[7..9])));
    }
  }

  /** The reader's answer agrees with the reference decoder's, unless the buffer limit was hit. */
  ghost predicate Answers(p: Parse, s: Bytes, rest: Bytes, end: RfbError, r: Result<ClientMessage, RfbError>) {
    && (r.Ok? ==> p.Got? && p.size <= |s| && r.value == p.message && rest == s[p.size..])
    && (r.Err? ==> r.error == BufferExceeded || (p.Short? && r.error == end) || p == Bad(r.error))
  }

  lemma {:induction false} OtherKinds(s: Bytes)
    ensures s == [] ==> DecodeOne(s) == Short
    ensures s != [] && s[0] !in {0, 2, 3, 4, 5, 6} ==> DecodeOne(s) == Bad(UnsupportedType(s[0]))
  {
  }

  lemma {:induction false} CodeBytes(s: Bytes, k: nat, bytes: Bytes)
    requires 8 + 4 * k <= |s| && bytes == s[4 + 4 * k..][..4]
    ensures s[4..][4 * (k + 1) - 4..4 * (k + 1)] == bytes && s[4 + 4 * k..][4..] == s[4 + 4 * (k + 1)..]
  {
  }

  function CodeCount(s: Bytes): nat {
    if |s| < 4 then 0 else FromBe16(s[2..4])
  }

  lemma {:induction false} EncodingsFirst(s: Bytes, later: seq<nat>)
    requires s != [] && s[0] == 2
    ensures DecodeOne(s) == DecodeEncodings(s)
    ensures DecodeOne(s).Got? ==> BodyReads(DecodeOne(s).message) + later == [3] + Fours(CodeCount(s), later)
  {
    hide FromBe16, DecodeCodes, DecodeCutText;
  }

  function Fours(n: nat, later: seq<nat>): seq<nat> {
    seq(n, _ => 4) + later
  }

  lemma {:induction false} FoursFirst(n: nat, later: seq<nat>)
    requires n > 0
    ensures Fours(n, later) == [4] + Fours(n - 1, later)
  {
  }

  // The session

  const ENCODING_TIGHT: I32 := 7

  datatype Effect =
    | SendUpdate(tight: bool, width: U16, height: U16)
    | SendClipboard(content: string)
    | InjectKey(keysym: U32, down: bool)
    | InjectPointer(x: U16, y: U16, buttons: Byte, previous: Byte)
    | SetClipboard(text: Bytes)

  datatype ClipboardRead = Unreadable | Empty | Holds(content: string)

  /** The desktop: what its clipboard holds, and which effects fail, while the n-th message is served. */
  datatype Desktop = Desktop(clipboard: nat -> ClipboardRead, fails: (nat, Effect) -> bool)

  /** `ok` is false once an effect has failed; the loop then ends. */
  datatype Session = Session(tight: bool, previousButtons: Byte, lastClipboard: Option<string>, handled: nat, ok: bool,
                             effects: seq<Effect>)

  const FRESH := Session(false, 0, None, 0, true, [])

  function Do(session: Session, e: Effect, desktop: Desktop): Session {
    if desktop.fails(session.handled, e) then session.(ok := false)
    else session.(effects := session.effects + [e])
  }

  /** After an update the clipboard is sent back, unless that text was the last one sent. */
  function ShareClipboard(session: Session, desktop: Desktop): Session {
    match desktop.clipboard(session.handled)
    case Unreadable => session.(ok := false)
    case Empty => session
    case Holds(content) =>
      if session.lastClipboard == Some(content) then session
      else
        var after := Do(session, SendClipboard(content), desktop);
        if after.ok then after.(lastClipboard := Some(content)) else after
  }

  function React(session: Session, m: ClientMessage, control: bool, desktop: Desktop): Session {
    match m
    case SetPixelFormat(_) => session
    case SetEncodings(_, codes) => session.(tight := ENCODING_TIGHT in codes)
    case UpdateRequest(_, _, _, width, height) =>
      var after := Do(session, SendUpdate(session.tight, width, height), desktop);
      if control && after.ok then ShareClipboard(after, desktop) else after
    case KeyEvent(down, _, _, keysym) =>
      if control then Do(session, InjectKey(keysym, down != 0), desktop) else session
    case PointerEvent(buttons, x, y) =>
      if control then
        var after := Do(session, InjectPointer(x, y, buttons, session.previousButtons), desktop);
        if after.ok then after.(previousButtons := buttons % 8) else after
      else session
    case CutText(_, text) => if control then Do(session, SetClipboard(text), desktop) else session
    case ExtendedCutText(_, _) => session
  }

  function Apply(session: Session, m: ClientMessage, control: bool, desktop: Desktop): Session {
    if !session.ok then session
    else
      var after := React(session, m, control, desktop);
      after.(handled := session.handled + 1)
  }

  function ApplyAll(ms: seq<ClientMessage>, control: bool, desktop: Desktop): Session {
    if ms == [] then FRESH else Apply(ApplyAll(ms[..|ms| - 1], control, desktop), ms[|ms| - 1], control, desktop)
  }

  function Updates(effects: seq<Effect>): seq<Effect> {
    if effects == [] then []
    else Updates(effects[..|effects| - 1]) + if effects[|effects| - 1].SendUpdate? then [effects[|effects| - 1]] else []
  }

  lemma {:induction false} UpdatesGrow(effects: seq<Effect>, e: Effect)
    ensures Updates(effects + [e]) == Updates(effects) + if e.SendUpdate? then [e] else []
  {
    assert (effects + [e])[..|effects|] == effects;
  }

  /** The view of a session without control and that of a session with control. */
  predicate SameView(view: Session, full: Session) {
    view.ok && view.effects == Updates(full.effects) && view.tight == full.tight && view.handled == full.handled
  }

  /** Control changes what is injected and shared and nothing else: without it the session only sends updates. They are
      the ones a session with control sends, for as long as that session lasts, and nothing else can end the session. */
  lemma {:induction false} ViewOnlyInjectsNothing(ms: seq<ClientMessage>, desktop: Desktop)
    ensures var view, full := ApplyAll(ms, false, desktop), ApplyAll(ms, true, desktop);
            && Updates(view.effects) == view.effects && Updates(full.effects) <= view.effects
            && (full.ok ==> SameView(view, full))
  {
    hide Updates, Apply;
    if ms != [] {
      var n := |ms| - 1;
      ViewOnlyInjectsNothing(ms[..n], desktop);
      var view, full := ApplyAll(ms[..n], false, desktop), ApplyAll(ms[..n], true, desktop);
      ViewStep(view, ms[n], desktop);
      FullStep(view, full, ms[n], desktop);
    } else {
      NoUpdates();
    }
  }

  lemma {:induction false} ViewStep(view: Session, m: ClientMessage, desktop: Desktop)
    requires Updates(view.effects) == view.effects
    ensures var after := Apply(view, m, false, desktop);
            Updates(after.effects) == after.effects && view.effects <= after.effects
  {
    hide Updates;
    if m.UpdateRequest? {
      UpdatesGrow(view.effects, SendUpdate(view.tight, m.width, m.height));
    }
  }

  lemma {:induction false} FullStep(view: Session, full: Session, m: ClientMessage, desktop: Desktop)
    requires Updates(full.effects) <= view.effects
    requires full.ok ==> SameView(view, full)
    ensures var v, f := Apply(view, m, false, desktop), Apply(full, m, true, desktop);
            && Updates(f.effects) <= v.effects
            && (f.ok ==> SameView(v, f))
  {
    hide Updates;
    if full.ok {
      var f := Apply(full, m, true, desktop);
      if m.UpdateRequest? {
        var e := SendUpdate(full.tight, m.width, m.height);
        UpdatesGrow(full.effects, e);
        if |f.effects| == |full.effects| + 2 {
          UpdatesGrow(full.effects + [e], f.effects[|full.effects| + 1]);
        }
      } else if |f.effects| == |full.effects| + 1 {
        UpdatesGrow(full.effects, f.effects[|full.effects|]);
      }
    }
  }

  lemma {:induction false} NoUpdates()
    ensures Updates([]) == []
  {
  }

  /** The clipboard texts sent, in order. */
  function Shared(effects: seq<Effect>): seq<string> {
    if effects == [] then []
    else
      var last := effects[|effects| - 1];
      Shared(effects[..|effects| - 1]) + if last.SendClipboard? then [last.content] else []
  }

  lemma {:induction false} SharedGrow(effects: seq<Effect>, e: Effect)
    ensures Shared(effects + [e]) == Shared(effects) + if e.SendClipboard? then [e.content] else []
  {
    assert (effects + [e])[..|effects|] == effects;
  }

  /** The last text sent is remembered, and none is sent twice in a row. */
  ghost predicate NoRepeat(session: Session) {
    var texts := Shared(session.effects);
    && session.lastClipboard == (if texts == [] then None else Some(texts[|texts| - 1]))
    && forall i :: 0 < i < |texts| ==> texts[i - 1] != texts[i]
  }

  lemma {:induction false} DoKeepsNoRepeat(session: Session, e: Effect, desktop: Desktop)
    requires NoRepeat(session) && !e.SendClipboard?
    ensures NoRepeat(Do(session, e, desktop))
  {
    hide Shared;
    SharedGrow(session.effects, e);
  }

  lemma {:induction false} ShareKeepsNoRepeat(session: Session, desktop: Desktop)
    requires NoRepeat(session) && session.ok
    ensures NoRepeat(ShareClipboard(session, desktop))
  {
    hide Shared;
    match desktop.clipboard(session.handled) {
      case Holds(content) =>
        SharedGrow(session.effects, SendClipboard(content));
      case _ =>
    }
  }

  /** A clipboard text is never sent twice in a row. */
  lemma {:induction false} ClipboardIsNotRepeated(ms: seq<ClientMessage>, control: bool, desktop: Desktop)
    ensures NoRepeat(ApplyAll(ms, control, desktop))
  {
    hide Shared, Do, ShareClipboard, NoRepeat;
    if ms == [] {
      assert NoRepeat(FRESH) by {
        NothingShared();
      }
    } else {
      var n := |ms| - 1;
      ClipboardIsNotRepeated(ms[..n], control, desktop);
      ApplyKeepsNoRepeat(ApplyAll(ms[..n], control, desktop), ms[n], control, desktop);
    }
  }

  lemma {:induction false} NothingShared()
    ensures NoRepeat(FRESH)
  {
  }

  lemma {:induction false} ApplyKeepsNoRepeat(session: Session, m: ClientMessage, control: bool, desktop: Desktop)
    requires NoRepeat(session)
    ensures NoRepeat(Apply(session, m, control, desktop))
  {
    hide Shared, Do, ShareClipboard;
    if session.ok {
      match m {
        case UpdateRequest(_, _, _, width, height) =>
          var e := SendUpdate(session.tight, width, height);
          DoKeepsNoRepeat(session, e, desktop);
          var after := Do(session, e, desktop);
          if control && after.ok {
            ShareKeepsNoRepeat(after, desktop);
          }
        case KeyEvent(down, _, _, keysym) =>
          DoKeepsNoRepeat(session, InjectKey(keysym, down != 0), desktop);
        case PointerEvent(buttons, x, y) =>
          DoKeepsNoRepeat(session, InjectPointer(x, y, buttons, session.previousButtons), desktop);
        case CutText(_, text) =>
          DoKeepsNoRepeat(session, SetClipboard(text), desktop);
        case _ =>
      }
    }
  }

  // The loop

  /** Serves until the transport ends, a message is refused or an effect fails. The messages are those of the byte
      stream, however it is cut into frames. If the stream is an encoded list `ms` of messages, its frames stay within
      the buffer limit and no effect fails, exactly `ms` is decoded and the loop ends with the transport, at a message
      boundary. */
  method Serve(ws: WsBytes, control: bool, desktop: Desktop, ghost ms: seq<ClientMessage>)
    returns (decoded: seq<ClientMessage>, session: Session, error: RfbError)
    requires forall i :: 0 <= i < |ms| ==> Valid(ms[i])
    modifies ws
    ensures session == ApplyAll(decoded, control, desktop)
    ensures error == EffectFailed <==> !session.ok
    ensures !session.ok ==> ApplyAll(decoded[..|decoded| - 1], control, desktop).ok
    ensures decoded <= DecodeAll(old(ws.Stream()), old(End(ws.frames))).0
    ensures error == EffectFailed || error == BufferExceeded
            || (decoded, error) == DecodeAll(old(ws.Stream()), old(End(ws.frames)))
    ensures old(ws.Stream()) == EncodeAll(ms) && old(Within(|ws.pending|, ws.frames, ReadsOfAll(ms))) ==>
              decoded <= ms && (session.ok ==> decoded == ms && error == old(End(ws.frames)))
  {
    hide Within, End, Payload, DecodeOne, Encode, Apply, ApplyAll, ReadsOf, DecodeAll, EncodeAll, ReadsOfAll, Progress;
    ghost var stream, end := ws.Stream(), End(ws.frames);
    ghost var carries := stream == EncodeAll(ms) && Within(|ws.pending|, ws.frames, ReadsOfAll(ms));
    NotEffects(ws.frames, stream, end);
    NothingDone(stream, end, control, desktop);
    decoded, session := [], FRESH;
    assert ms[0..] == ms && ms[..0] == [];
    while session.ok
      invariant End(ws.frames) == end && session == ApplyAll(decoded, control, desktop)
      invariant !session.ok ==> decoded != [] && ApplyAll(decoded[..|decoded| - 1], control, desktop).ok
      invariant Progress(stream, end, decoded, ws.Stream())
      invariant carries ==> |decoded| <= |ms| && decoded == ms[..|decoded|] && ws.Stream() == EncodeAll(ms[|decoded|..])
                            && Within(|ws.pending|, ws.frames, ReadsOfAll(ms[|decoded|..]))
      decreases |ws.Stream()|
    {
      ghost var s, k := ws.Stream(), |decoded|;
      ghost var later := if carries && k < |ms| then ReadsOfAll(ms[k + 1..]) else [];
      if carries && k < |ms| {
        NextExpected(ms, k);
      }
      NothingExpected();
      var next := ws.ReadMessage(later);
      ProgressStep(stream, end, decoded, s);
      if next.Err? {
        return decoded, session, next.error;
      }
      ApplyStep(decoded, next.value, control, desktop);
      decoded := decoded + [next.value];
      session := Apply(session, next.value, control, desktop);
    }
    ProgressIsPrefix(stream, end, decoded, ws.Stream());
    error := EffectFailed;
  }

  /** The messages decoded so far and those of the remaining stream `now` are those of the whole stream. */
  ghost predicate Progress(stream: Bytes, end: RfbError, decoded: seq<ClientMessage>, now: Bytes) {
    var (rest, stop) := DecodeAll(now, end);
    DecodeAll(stream, end) == (decoded + rest, stop)
  }

  lemma {:induction false} NothingDone(stream: Bytes, end: RfbError, control: bool, desktop: Desktop)
    ensures Progress(stream, end, [], stream) && ApplyAll([], control, desktop) == FRESH
  {
    hide DecodeAll;
    assert [] + DecodeAll(stream, end).0 == DecodeAll(stream, end).0;
  }

  lemma {:induction false} ApplyStep(ms: seq<ClientMessage>, m: ClientMessage, control: bool, desktop: Desktop)
    ensures ApplyAll(ms + [m], control, desktop) == Apply(ApplyAll(ms, control, desktop), m, control, desktop)
    ensures (ms + [m])[..|ms + [m]| - 1] == ms
  {
    hide Apply;
    assert (ms + [m])[..|ms|] == ms;
  }

  lemma {:induction false} ProgressIsPrefix(stream: Bytes, end: RfbError, decoded: seq<ClientMessage>, now: Bytes)
    requires Progress(stream, end, decoded, now)
    ensures decoded <= DecodeAll(stream, end).0
  {
    hide DecodeAll;
  }

  lemma {:induction false} ProgressStep(stream: Bytes, end: RfbError, decoded: seq<ClientMessage>, now: Bytes)
    requires Progress(stream, end, decoded, now)
    ensures decoded <= DecodeAll(stream, end).0
    ensures match DecodeOne(now)
            case Short => DecodeAll(stream, end) == (decoded, end)
            case Bad(error) => DecodeAll(stream, end) == (decoded, error)
            case Got(m, size) => Progress(stream, end, decoded + [m], now[size..])
  {
    hide DecodeOne, DecodeAll;
    DecodeStep(now, end);
    assert decoded + [] == decoded;
    var p := DecodeOne(now);
    if p.Got? {
      var rest := DecodeAll(now[p.size..], end).0;
      assert decoded + ([p.message] + rest) == (decoded + [p.message]) + rest;
    }
  }

  /** The reader never reports a failed effect. */
  lemma {:induction false} NotEffects(frames: seq<Frame>, s: Bytes, end: RfbError)
    requires end == End(frames)
    ensures end != EffectFailed && DecodeAll(s, end).1 != EffectFailed
    decreases |frames| + |s|
  {
    EndIsNotEffect(frames);
    var p := DecodeOne(s);
    if p.Got? {
      NotEffects(frames, s[p.size..], end);
    }
  }

  lemma {:induction false} EndIsNotEffect(frames: seq<Frame>)
    ensures End(frames) != EffectFailed
  {
    if frames != [] {
      EndIsNotEffect(frames[1..]);
    }
  }

  lemma {:induction false} NothingExpected()
    ensures EncodeAll([]) == [] && ReadsOfAll([]) == [1] && DecodeOne([]) == Short
  {
  }

  lemma {:induction false} DecodeStep(s: Bytes, end: RfbError)
    ensures match DecodeOne(s)
            case Short => DecodeAll(s, end) == ([], end)
            case Bad(error) => DecodeAll(s, end) == ([], error)
            case Got(m, size) => DecodeAll(s, end) == ([m] + DecodeAll(s[size..], end).0, DecodeAll(s[size..], end).1)
  {
    hide DecodeOne;
  }

  lemma {:induction false} NextExpected(ms: seq<ClientMessage>, k: nat)
    requires k < |ms| && forall i :: 0 <= i < |ms| ==> Valid(ms[i])
    ensures DecodeOne(EncodeAll(ms[k..])) == Got(ms[k], |Encode(ms[k])|)
    ensures EncodeAll(ms[k..])[|Encode(ms[k])|..] == EncodeAll(ms[k + 1..])
    ensures ReadsOfAll(ms[k..]) == ReadsOf(ms[k]) + ReadsOfAll(ms[k + 1..])
  {
    hide Encode, DecodeOne, ReadsOf;
    assert ms[k..][0] == ms[k] && ms[k..][1..] == ms[k + 1..];
    DecodesEncoded(ms[k], EncodeAll(ms[k + 1..]));
  }
}
