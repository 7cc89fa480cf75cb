/** RFB client messages (section 7.5 of RFC 6143): their bytes, and the reference decoder over a whole byte stream. */
module RfbMessages {
  import opened Machine
  import opened Outcomes

  type U16 = n: nat | n < 0x1_0000
  type U32 = n: nat | n < 0x1_0000_0000
  type I32 = n: int | -0x8000_0000 <= n < 0x8000_0000

  const MAX_CLIENT_MESSAGE: nat := 16 * 1024 * 1024
  const MAX_CLIPBOARD_BYTES: nat := 1024 * 1024
  const MAX_ENCODINGS: nat := 4096

  datatype ClientMessage =
    | SetPixelFormat(body: Bytes)
    | SetEncodings(padding: Byte, codes: seq<I32>)
    | UpdateRequest(incremental: Byte, x: U16, y: U16, width: U16, height: U16)
    | KeyEvent(down: Byte, padding1: Byte, padding2: Byte, keysym: U32)
    | PointerEvent(buttons: Byte, px: U16, py: U16)
    | CutText(reserved: Bytes, text: Bytes)
    | ExtendedCutText(reserved: Bytes, extended: Bytes)

  predicate Valid(m: ClientMessage) {
    match m
    case SetPixelFormat(body) => |body| == 19
    case SetEncodings(_, codes) => |codes| <= MAX_ENCODINGS
    case CutText(reserved, text) => |reserved| == 3 && |text| <= MAX_CLIPBOARD_BYTES
    case ExtendedCutText(reserved, extended) => |reserved| == 3 && 0 < |extended| <= MAX_CLIENT_MESSAGE
    case _ => true
  }

  datatype RfbError =
    | Closed | NotBinary | BufferExceeded | TooManyEncodings | ExtendedTooLong | ClipboardTooLong
    | UnsupportedType(kind: Byte) | EffectFailed

  // Big-endian numbers

  function Be16(n: U16): (b: Bytes)
    ensures |b| == 2
  {
    [n / 256, n % 256]
  }

  function FromBe16(b: Bytes): U16
    requires |b| == 2
  {
    var high: nat, low: nat := b[0], b[1];
    high * 256 + low
  }

  function Be32(n: U32): (b: Bytes)
    ensures |b| == 4
  {
    Be16(n / 0x1_0000) + Be16(n % 0x1_0000)
  }

  function FromBe32(b: Bytes): U32
    requires |b| == 4
  {
    FromBe16(b[..2]) * 0x1_0000 + FromBe16(b[2..])
  }

  /** Two's complement. */
  function Signed(n: U32): I32 {
    if n < 0x8000_0000 then n else n - 0x1_0000_0000
  }

  function Unsigned(n: I32): U32 {
    if n >= 0 then n else n + 0x1_0000_0000
  }

  lemma {:induction false} ReadsBe16(n: U16)
    ensures FromBe16(Be16(n)) == n
  {
  }

  lemma {:induction false} ReadsBe32(n: U32)
    ensures FromBe32(Be32(n)) == n
  {
    hide Be16, FromBe16;
    ReadsBe16(n / 0x1_0000);
    ReadsBe16(n % 0x1_0000);
    assert Be32(n)[..2] == Be16(n / 0x1_0000) && Be32(n)[2..] == Be16(n % 0x1_0000);
  }

  lemma {:induction false} ReadsI32(n: I32)
    ensures Signed(FromBe32(Be32(Unsigned(n)))) == n
  {
    hide Be32, FromBe32;
    ReadsBe32(Unsigned(n));
  }

  function EncodeCodes(codes: seq<I32>): (b: Bytes)
    ensures |b| == 4 * |codes|
  {
    if codes == [] then [] else EncodeCodes(codes[..|codes| - 1]) + Be32(Unsigned(codes[|codes| - 1]))
  }

  function DecodeCodes(b: Bytes, count: nat): (codes: seq<I32>)
    requires 4 * count <= |b|
    ensures |codes| == count
  {
    if count == 0 then [] else DecodeCodes(b, count - 1) + [Signed(FromBe32(b[4 * count - 4..4 * count]))]
  }

  lemma {:induction false} ReadsCodes(codes: seq<I32>, rest: Bytes)
    ensures DecodeCodes(EncodeCodes(codes) + rest, |codes|) == codes
  {
    hide FromBe32, Be32;
    if codes != [] {
      var n := |codes|;
      var front, last := EncodeCodes(codes[..n - 1]), Be32(Unsigned(codes[n - 1]));
      ReadsCodes(codes[..n - 1], last + rest);
      ReadsI32(codes[n - 1]);
      var b := EncodeCodes(codes) + rest;
      assert b == front + (last + rest);
      assert b[4 * n - 4..4 * n] == last;
    }
  }

  // Messages

  function Encode(m: ClientMessage): Bytes
    requires Valid(m)
  {
    match m
    case SetPixelFormat(body) => [0] + body
    case SetEncodings(padding, codes) => [2, padding] + Be16(|codes|) + EncodeCodes(codes)
    case UpdateRequest(incremental, x, y, width, height) =>
      [3, incremental] + Be16(x) + Be16(y) + Be16(width) + Be16(height)
    case KeyEvent(down, padding1, padding2, keysym) => [4, down, padding1, padding2] + Be32(keysym)
    case PointerEvent(buttons, x, y) => [5, buttons] + Be16(x) + Be16(y)
    case CutText(reserved, text) => [6] + reserved + Be32(|text|) + text
    case ExtendedCutText(reserved, extended) => [6] + reserved + Be32(Unsigned(-|extended|)) + extended
  }

  function EncodeAll(ms: seq<ClientMessage>): Bytes
    requires forall i :: 0 <= i < |ms| ==> Valid(ms[i])
  {
    if ms == [] then [] else Encode(ms[0]) + EncodeAll(ms[1..])
  }

  /** The first message of a stream: its value and its length, or that it is incomplete, or that it is refused. */
  datatype Parse = Got(message: ClientMessage, size: nat) | Short | Bad(error: RfbError)

  function DecodeEncodings(s: Bytes): Parse
    requires s != []
  {
    if |s| < 4 then Short
    else
      var count := FromBe16(s[2..4]);
      if count > MAX_ENCODINGS then Bad(TooManyEncodings)
      else if |s| < 4 + 4 * count then Short
      else Got(SetEncodings(s[1], DecodeCodes(s[4..], count)), 4 + 4 * count)
  }

  function DecodeCutText(s: Bytes): Parse
    requires s != []
  {
    if |s| < 8 then Short
    else
      var length: int := Signed(FromBe32(s[4..8]));
      if length < 0 then
        if -length > MAX_CLIENT_MESSAGE then Bad(ExtendedTooLong)
        else if |s| < 8 - length then Short
        else Got(ExtendedCutText(s[1..4], s[8..8 - length]), 8 - length)
      else
        if length > MAX_CLIPBOARD_BYTES then Bad(ClipboardTooLong)
        else if |s| < 8 + length then Short
        else Got(CutText(s[1..4], s[8..8 + length]), 8 + length)
  }

  function DecodeOne(s: Bytes): (p: Parse)
    ensures p.Got? ==> 0 < p.size <= |s|
  {
    if s == [] then Short
    else if s[0] == 0 then if |s| < 20 then Short else Got(SetPixelFormat(s[1..20]), 20)
    else if s[0] == 2 then DecodeEncodings(s)
    else if s[0] == 3 then
      if |s| < 10 then Short
      else Got(UpdateRequest(s[1], FromBe16(s[2..4]), FromBe16(s[4..6]), FromBe16(s[6..8]), FromBe16(s[8..10])), 10)
    else if s[0] == 4 then if |s| < 8 then Short else Got(KeyEvent(s[1], s[2], s[3], FromBe32(s[4..8])), 8)
    else if s[0] == 5 then if |s| < 6 then Short else Got(PointerEvent(s[1], FromBe16(s[2..4]), FromBe16(s[4..6])), 6)
    else if s[0] == 6 then DecodeCutText(s)
    else Bad(UnsupportedType(s[0]))
  }

  /** All messages of a stream, and what stops the reader: `end` when the stream is used up. */
  function DecodeAll(s: Bytes, end: RfbError): (seq<ClientMessage>, RfbError)
    decreases |s|
  {
    var p := DecodeOne(s);
    match p
    case Short => ([], end)
    case Bad(error) => ([], error)
    case Got(m, size) => var (rest, error) := DecodeAll(s[size..], end); ([m] + rest, error)
  }

  lemma {:induction false} ReadsCutText(reserved: Bytes, length: I32, text: Bytes, rest: Bytes)
    requires |reserved| == 3
    ensures var s := [6] + reserved + Be32(Unsigned(length)) + text + rest;
            && |s| == 8 + |text| + |rest| && s[0] == 6 && s[1..4] == reserved && Signed(FromBe32(s[4..8])) == length
            && s[8..8 + |text|] == text && s[8 + |text|..] == rest
  {
    hide Be32, FromBe32, Signed, Unsigned;
    var s := [6] + reserved + Be32(Unsigned(length)) + text + rest;
    ReadsI32(length);
    assert s[4..8] == Be32(Unsigned(length));
  }

  lemma {:induction false} DecodesCutText(m: ClientMessage, rest: Bytes)
    requires Valid(m) && (m.CutText? || m.ExtendedCutText?)
    ensures DecodeOne(Encode(m) + rest) == Got(m, |Encode(m)|)
  {
    hide Be32, FromBe32, DecodeEncodings;
    match m {
      case CutText(reserved, text) =>
        ReadsCutText(reserved, |text|, text, rest);
      case ExtendedCutText(reserved, extended) =>
        ReadsCutText(reserved, -|extended|, extended, rest);
    }
  }

  lemma {:induction false} DecodesEncodings(m: ClientMessage, rest: Bytes)
    requires Valid(m) && m.SetEncodings?
    ensures DecodeOne(Encode(m) + rest) == Got(m, |Encode(m)|)
  {
    hide Be16, FromBe16, DecodeCutText, DecodeCodes, EncodeCodes;
    var s := Encode(m) + rest;
    ReadsBe16(|m.codes|);
    assert s[2..4] == Be16(|m.codes|);
    assert s[4..] == EncodeCodes(m.codes) + rest;
    ReadsCodes(m.codes, rest);
  }

  lemma {:induction false} DecodesUpdateRequest(m: ClientMessage, rest: Bytes)
    requires m.UpdateRequest?
    ensures DecodeOne(Encode(m) + rest) == Got(m, |Encode(m)|)
  {
    hide Be16, FromBe16, DecodeCutText, DecodeEncodings;
    var s := Encode(m) + rest;
    ReadsBe16(m.x);
    ReadsBe16(m.y);
    ReadsBe16(m.width);
    ReadsBe16(m.height);
    assert s[2..4] == Be16(m.x) && s[4..6] == Be16(m.y) && s[6..8] == Be16(m.width) && s[8..10] == Be16(m.height);
  }

  /** The first message of a stream that starts with an encoded message is that message. */
  lemma {:induction false} DecodesEncoded(m: ClientMessage, rest: Bytes)
    requires Valid(m)
    ensures DecodeOne(Encode(m) + rest) == Got(m, |Encode(m)|)
  {
    hide Be16, FromBe16, Be32, FromBe32, DecodeCutText, DecodeEncodings;
    var s := Encode(m) + rest;
    match m {
      case SetPixelFormat(body) =>
        assert s[1..20] == body;
      case SetEncodings(_, _) =>
        DecodesEncodings(m, rest);
      case UpdateRequest(_, _, _, _, _) =>
        DecodesUpdateRequest(m, rest);
      case KeyEvent(_, _, _, keysym) =>
        ReadsBe32(keysym);
        assert s[4..8] == Be32(keysym);
      case PointerEvent(_, x, y) =>
        ReadsBe16(x);
        ReadsBe16(y);
        assert s[2..4] == Be16(x) && s[4..6] == Be16(y);
      case CutText(_, _) =>
        DecodesCutText(m, rest);
      case ExtendedCutText(_, _) =>
        DecodesCutText(m, rest);
    }
  }

  /** Decoding undoes encoding, for every list of messages. */
  lemma {:induction false} DecodesEncodedAll(ms: seq<ClientMessage>, end: RfbError)
    requires forall i :: 0 <= i < |ms| ==> Valid(ms[i])
    ensures DecodeAll(EncodeAll(ms), end) == (ms, end)
  {
    hide DecodeOne, Encode;
    if ms == [] {
      NothingIsShort();
    } else {
      var first, rest := Encode(ms[0]), EncodeAll(ms[1..]);
      DecodesEncoded(ms[0], rest);
      DecodesEncodedAll(ms[1..], end);
      assert (first + rest)[|first|..] == rest;
      assert ms == [ms[0]] + ms[1..];
    }
  }

  lemma {:induction false} NothingIsShort()
    ensures DecodeOne([]) == Short
  {
  }

  // The other way round

  lemma {:induction false} WritesBe16(b: Bytes)
    requires |b| == 2
    ensures Be16(FromBe16(b)) == b
  {
  }

  lemma {:induction false} WritesBe32(b: Bytes)
    requires |b| == 4
    ensures Be32(FromBe32(b)) == b && Be32(Unsigned(Signed(FromBe32(b)))) == b
  {
    hide Be16, FromBe16;
    WritesBe16(b[..2]);
    WritesBe16(b[2..]);
    assert b == b[..2] + b[2..];
  }

  lemma {:induction false} WritesCodes(b: Bytes, count: nat)
    requires 4 * count <= |b|
    ensures EncodeCodes(DecodeCodes(b, count)) == b[..4 * count]
  {
    hide FromBe32, Be32, Signed, Unsigned;
    if count > 0 {
      WritesCodes(b, count - 1);
      var code := b[4 * count - 4..4 * count];
      WritesBe32(code);
      assert DecodeCodes(b, count)[..count - 1] == DecodeCodes(b, count - 1);
      assert b[..4 * count] == b[..4 * count - 4] + code;
    }
  }

  lemma {:induction false} EncodesEncodings(s: Bytes)
    requires s != [] && s[0] == 2 && DecodeEncodings(s).Got?
    ensures var p := DecodeEncodings(s); Valid(p.message) && p.size <= |s| && Encode(p.message) == s[..p.size]
  {
    hide FromBe16, Be16, DecodeCodes, EncodeCodes;
    var p := DecodeEncodings(s);
    var count := FromBe16(s[2..4]);
    WritesBe16(s[2..4]);
    WritesCodes(s[4..], count);
    assert s[..p.size] == [s[0], s[1]] + s[2..4] + s[4..][..4 * count];
  }

  lemma {:induction false} EncodesCutText(s: Bytes)
    requires s != [] && s[0] == 6 && DecodeCutText(s).Got?
    ensures var p := DecodeCutText(s); Valid(p.message) && p.size <= |s| && Encode(p.message) == s[..p.size]
  {
    hide FromBe32, Be32;
    var p := DecodeCutText(s);
    WritesBe32(s[4..8]);
    assert s[..p.size] == [s[0]] + s[1..4] + s[4..8] + s[8..p.size];
  }

  lemma {:induction false} EncodesUpdateRequest(s: Bytes)
    requires s != [] && s[0] == 3 && DecodeOne(s).Got?
    ensures var p := DecodeOne(s); Valid(p.message) && Encode(p.message) == s[..p.size]
  {
    hide FromBe16, Be16;
    WritesBe16(s[2..4]);
    WritesBe16(s[4..6]);
    WritesBe16(s[6..8]);
    WritesBe16(s[8..10]);
    assert s[..10] == [s[0], s[1]] + s[2..4] + s[4..6] + s[6..8] + s[8..10];
  }

  /** Whatever is read is a message that can be written, and its bytes are the ones that were read. */
  lemma {:induction false} EncodesDecoded(s: Bytes)
    requires DecodeOne(s).Got?
    ensures var p := DecodeOne(s); Valid(p.message) && Encode(p.message) == s[..p.size]
  {
    hide FromBe16, Be16, FromBe32, Be32, DecodeEncodings, DecodeCutText;
    if s[0] == 0 {
      assert s[..20] == [s[0]] + s[1..20];
    } else if s[0] == 2 {
      EncodesEncodings(s);
    } else if s[0] == 3 {
      EncodesUpdateRequest(s);
    } else if s[0] == 4 {
      WritesBe32(s[4..8]);
      assert s[..8] == [s[0], s[1], s[2], s[3]] + s[4..8];
    } else if s[0] == 5 {
      WritesBe16(s[2..4]);
      WritesBe16(s[4..6]);
      assert s[..6] == [s[0], s[1]] + s[2..4] + s[4..6];
    } else {
      EncodesCutText(s);
    }
  }
}
