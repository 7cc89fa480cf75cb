/** Framebuffer updates (sections 7.6.1 and 7.7.1 of RFC 6143): clamping the requested size, cropping, and the raw
    rectangle; and the compact length of a Tight rectangle. */
module Framebuffer {
  import opened Machine
  import opened Outcomes
  import opened RfbMessages

  datatype Frame = Frame(width: U16, height: U16, bgra: Bytes)

  const ENCODING_RAW: I32 := 0

  predicate Captured(frame: Frame) {
    |frame.bgra| == 4 * (frame.width * frame.height)
  }

  /** The served size: no more than the screen, the captured frame and the request, where a request of zero counts as
      one. */
  function Clamp(screen: U16, captured: U16, requested: U16): (n: U16)
    ensures n <= screen && n <= captured && n <= Larger(requested, 1)
    ensures n == screen || n == captured || n == Larger(requested, 1)
  {
    Smaller(Smaller(screen, captured), Larger(requested, 1))
  }

  /** How many pixels lie before a row. */
  function RowStart(width: nat, row: nat): nat {
    width * row
  }

  /** The four bytes of a pixel in rows of `width` pixels. */
  function Pixel(bytes: Bytes, width: nat, row: nat, column: nat): (pixel: Bytes)
    requires column < width && 4 * (RowStart(width, row) + column) + 4 <= |bytes|
    ensures |pixel| == 4
  {
    bytes[4 * (RowStart(width, row) + column)..4 * (RowStart(width, row) + column) + 4]
  }

  /** The rows of the captured frame, cut to the served size. */
  method CroppedBgra(frame: Frame, width: U16, height: U16) returns (r: Result<Bytes, ()>)
    requires Captured(frame)
    ensures r.Ok? <==> width <= frame.width && height <= frame.height
    ensures r.Ok? ==> |r.value| == 4 * (width * height)
    ensures r.Ok? ==>
              forall row: nat, column: nat :: row < height && column < width ==>
                SamePixel(frame, r.value, width, row, column)
  {
    if width > frame.width || height > frame.height {
      return Err(());
    }
    hide SamePixel;
    var output: Bytes := [];
    var rowBytes: nat := width * 4;
    var stride: nat := frame.width * 4;
    for row := 0 to height
      invariant |output| == 4 * RowStart(width, row)
      invariant forall r: nat, c: nat :: r < row && c < width ==> SamePixel(frame, output, width, r, c)
    {
      var start: nat := row * stride;
      RowInside(frame, width, row, start);
      ghost var before := output;
      output := output + frame.bgra[start..start + rowBytes];
      forall r: nat, c: nat | r < row + 1 && c < width
        ensures SamePixel(frame, output, width, r, c)
      {
        RowCopied(frame, before, output, width, row, r, c);
      }
      NextRow(width, row);
    }
    r := Ok(output);
  }

  lemma {:induction false} NextRow(width: nat, row: nat)
    ensures RowStart(width, row) + width == RowStart(width, row + 1)
  {
  }

  /** No row slice reads out of range. */
  lemma {:induction false} RowInside(frame: Frame, width: nat, row: nat, start: nat)
    requires Captured(frame) && width <= frame.width && row < frame.height && start == row * (frame.width * 4)
    ensures start == 4 * RowStart(frame.width, row) && start + width * 4 <= |frame.bgra|
  {
    var wide: nat, high: nat := frame.width, frame.height;
    assert wide * (row + 1) <= wide * high;
  }

  ghost predicate SamePixel(frame: Frame, output: Bytes, width: nat, row: nat, column: nat)
    requires column < width
  {
    && column < frame.width
    && 4 * (RowStart(width, row) + column) + 4 <= |output|
    && 4 * (RowStart(frame.width, row) + column) + 4 <= |frame.bgra|
    && Pixel(output, width, row, column) == Pixel(frame.bgra, frame.width, row, column)
  }

  /** Bytes copied from `source` land at the end of the output. */
  lemma {:induction false} CopiedNew(bgra: Bytes, before: Bytes, after: Bytes, source: nat, length: nat, i: nat)
    requires source + length <= |bgra| && after == before + bgra[source..source + length] && i + 4 <= length
    ensures after[|before| + i..|before| + i + 4] == bgra[source + i..source + i + 4]
  {
    var piece := bgra[source..source + length];
    assert after[|before| + i..|before| + i + 4] == piece[i..i + 4];
    var four := bgra[source + i..source + i + 4];
    assert forall k :: 0 <= k < 4 ==> four[k] == bgra[source + i + k] && four[k] == piece[i + k];
  }

  lemma {:induction false} RowCopied(frame: Frame, before: Bytes, after: Bytes, width: nat, row: nat, r: nat, c: nat)
    requires width <= frame.width && r <= row && c < width
    requires |before| == 4 * RowStart(width, row) && 4 * RowStart(frame.width, row) + 4 * width <= |frame.bgra|
    requires after == before + frame.bgra[4 * RowStart(frame.width, row)..4 * RowStart(frame.width, row) + 4 * width]
    requires r < row ==> SamePixel(frame, before, width, r, c)
    ensures SamePixel(frame, after, width, r, c)
  {
    hide RowStart;
    var source, at := 4 * RowStart(frame.width, row), 4 * (RowStart(width, r) + c);
    if r == row {
      CopiedNew(frame.bgra, before, after, source, 4 * width, 4 * c);
    } else {
      assert after[at..at + 4] == before[at..at + 4];
    }
  }

  /** The header of an update with one rectangle at the origin. */
  function RectangleHeader(width: U16, height: U16, encoding: I32): (b: Bytes)
    ensures |b| == 16
  {
    [0, 0] + Be16(1) + Be16(0) + Be16(0) + Be16(width) + Be16(height) + Be32(Unsigned(encoding))
  }

  /** A client reads back from the header one rectangle, its position, its size and its encoding. */
  lemma {:induction false} HeaderReadsBack(width: U16, height: U16, encoding: I32)
    ensures var b := RectangleHeader(width, height, encoding);
            && b[0] == 0 && FromBe16(b[2..4]) == 1 && FromBe16(b[4..6]) == 0 && FromBe16(b[6..8]) == 0
            && FromBe16(b[8..10]) == width && FromBe16(b[10..12]) == height && Signed(FromBe32(b[12..16])) == encoding
  {
    hide Be16, FromBe16, Be32, FromBe32;
    var b := RectangleHeader(width, height, encoding);
    ReadsBe16(1);
    ReadsBe16(0);
    ReadsBe16(width);
    ReadsBe16(height);
    ReadsI32(encoding);
    assert b[2..4] == Be16(1) && b[4..6] == Be16(0) && b[6..8] == Be16(0);
    assert b[8..10] == Be16(width) && b[10..12] == Be16(height) && b[12..16] == Be32(Unsigned(encoding));
  }

  /** What a raw update of a frame is: a header for the served size, then exactly its pixels. */
  ghost predicate IsRawUpdate(frame: Frame, width: U16, height: U16, update: Bytes) {
    && |update| == 16 + 4 * (width * height)
    && update[..16] == RectangleHeader(width, height, ENCODING_RAW)
    && forall row: nat, column: nat :: row < height && column < width ==>
         SamePixel(frame, update[16..], width, row, column)
  }

  /** The raw update. */
  method RawUpdate(frame: Frame, width: U16, height: U16) returns (r: Result<Bytes, ()>)
    requires Captured(frame)
    ensures r.Ok? <==> width <= frame.width && height <= frame.height
    ensures r.Ok? ==> IsRawUpdate(frame, width, height, r.value)
  {
    var header := RectangleHeader(width, height, ENCODING_RAW);
    var pixels := CroppedBgra(frame, width, height);
    if pixels.Err? {
      return Err(());
    }
    var update := header + pixels.value;
    assert update[16..] == pixels.value && update[..16] == header;
    r := Ok(update);
  }

  /** The answer to an update request: the clamp makes the crop always pass. */
  method AnswerRequest(frame: Frame, screenWidth: U16, screenHeight: U16, requestedWidth: U16, requestedHeight: U16)
    returns (r: Result<Bytes, ()>)
    requires Captured(frame)
    ensures r.Ok? && IsRawUpdate(frame, Clamp(screenWidth, frame.width, requestedWidth),
                                 Clamp(screenHeight, frame.height, requestedHeight), r.value)
  {
    hide IsRawUpdate;
    var width := Clamp(screenWidth, frame.width, requestedWidth);
    var height := Clamp(screenHeight, frame.height, requestedHeight);
    r := RawUpdate(frame, width, height);
  }

  // Compact lengths

  const COMPACT_LIMIT: nat := 0x3f_ffff

  /** One to three bytes, seven bits in the first two, the high bit saying that more follow. */
  method EncodeCompactLength(length: nat) returns (r: Result<Bytes, ()>)
    ensures r.Ok? <==> length <= COMPACT_LIMIT
    ensures r.Ok? ==> DecodeCompactLength(r.value) == Some((length, |r.value|))
    ensures r.Ok? ==> |r.value| == if length < 0x80 then 1 else if length < 0x4000 then 2 else 3
  {
    if length > COMPACT_LIMIT {
      return Err(());
    }
    var value := length;
    var first := value % 0x80;
    value := value / 0x80;
    if value != 0 {
      first := first + 0x80;
    }
    var output: Bytes := [first];
    if value != 0 {
      var second := value % 0x80;
      value := value / 0x80;
      if value != 0 {
        second := second + 0x80;
      }
      output := output + [second];
      if value != 0 {
        output := output + [value];
      }
    }
    r := Ok(output);
  }

  /** What a client makes of a compact length: its value and how many bytes it took. */
  function DecodeCompactLength(b: Bytes): Option<(nat, nat)> {
    if b == [] then None
    else if b[0] < 0x80 then Some((b[0], 1))
    else if |b| < 2 then None
    else
      var low: nat, middle: nat := b[0] - 0x80, b[1];
      if middle < 0x80 then Some((low + 0x80 * middle, 2))
      else if |b| < 3 then None
      else var high: nat := b[2]; Some((low + 0x80 * (middle - 0x80) + 0x4000 * high, 3))
  }

  /** A compact length ends by itself: what follows does not change it. */
  lemma {:induction false} CompactLengthIsSelfDelimiting(b: Bytes, rest: Bytes)
    requires DecodeCompactLength(b).Some?
    ensures DecodeCompactLength(b + rest) == DecodeCompactLength(b)
  {
  }
}
