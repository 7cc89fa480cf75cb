/** Readers that bound what they keep: two line readers over a buffered stream, and a byte reader. */
module BoundedReaders {
  import opened Machine
  import opened Outcomes

  /** A buffered reader: the slices it will hand out, of any sizes. Only the end of the stream shows an empty slice. */
  class BufferedReader {
    var slices: seq<Bytes>

    ghost predicate Valid()
      reads this
    {
      forall i :: 0 <= i < |slices| ==> slices[i] != []
    }

    /** What has not been consumed. */
    ghost function Rest(): Bytes
      reads this
    {
      Flat(slices)
    }

    constructor (pieces: seq<Bytes>)
      requires forall i :: 0 <= i < |pieces| ==> pieces[i] != []
      ensures Valid() && slices == pieces
    {
      slices := pieces;
    }

    method FillBuf() returns (available: Bytes)
      requires Valid()
      ensures available <= Rest() && (available == [] <==> Rest() == [])
      ensures available == if slices == [] then [] else slices[0]
    {
      available := if slices == [] then [] else slices[0];
    }

    method Consume(n: nat)
      requires Valid() && slices != [] && n <= |slices[0]|
      modifies this
      ensures Valid() && Rest() == old(Rest())[n..]
    {
      ghost var rest := Flat(slices[1..]);
      if n == |slices[0]| {
        slices := slices[1..];
      } else {
        slices := slices[0 := slices[0][n..]];
        assert slices[1..] == old(slices)[1..];
      }
      assert Rest() == (old(slices)[0] + rest)[n..];
    }
  }

  /** The length of the first line, with its newline if it has one. */
  function FirstLine(bytes: Bytes): (n: nat)
    ensures n <= |bytes| && (bytes != [] ==> n > 0)
    ensures forall i :: 0 <= i < n - 1 ==> bytes[i] != LF
    ensures n < |bytes| ==> bytes[n - 1] == LF
  {
    if bytes == [] then 0 else if bytes[0] == LF then 1 else 1 + FirstLine(bytes[1..])
  }

  predicate EndsLine(line: Bytes) {
    line != [] && line[|line| - 1] == LF
  }

  /** All carriage returns and newlines at the end are cut off. */
  function StripAll(line: Bytes): Bytes {
    if line != [] && (line[|line| - 1] == LF || line[|line| - 1] == CR) then StripAll(line[..|line| - 1]) else line
  }

  /** A newline is cut off, and then one carriage return; without a newline nothing is. */
  function StripOne(line: Bytes): Bytes {
    if !EndsLine(line) then line
    else
      var body := line[..|line| - 1];
      if body != [] && body[|body| - 1] == CR then body[..|body| - 1] else body
  }

  predicate NoLf(line: Bytes) {
    forall i :: 0 <= i < |line| ==> line[i] != LF
  }

  /** Taking a slice up to its newline either completes the first line or leaves it without a newline so far. */
  lemma {:induction false} TakeSlice(line: Bytes, available: Bytes, rest: Bytes)
    requires available <= rest && available != [] && NoLf(line)
    ensures var take := FirstLine(available);
            var more := line + available[..take];
            && |line| + take <= FirstLine(line + rest)
            && (EndsLine(more) ==> FirstLine(line + rest) == |more|)
            && (!EndsLine(more) ==> NoLf(more))
            && more == (line + rest)[..|more|] && rest[take..] == (line + rest)[|more|..]
            && more + rest[take..] == line + rest
  {
    var take := FirstLine(available);
    assert forall i :: 0 <= i < |line| ==> (line + rest)[i] == line[i];
    assert forall i :: 0 <= i < |available| ==> (line + rest)[|line| + i] == available[i];
  }

  /** The part both readers share: bytes up to and with the next newline, refused when they are more than the limit. */
  method ReadRaw(reader: BufferedReader, limit: nat) returns (r: Result<Bytes, ()>)
    requires reader.Valid()
    modifies reader
    ensures reader.Valid()
    ensures r.Err? <==> FirstLine(old(reader.Rest())) > limit
    ensures r.Ok? ==>
              var n := FirstLine(old(reader.Rest()));
              r.value == old(reader.Rest())[..n] && reader.Rest() == old(reader.Rest())[n..]
  {
    hide FirstLine, NoLf, EndsLine;
    ghost var all := reader.Rest();
    var line: Bytes := [];
    NoLfInEmpty();
    assert line + all == all;
    while true
      invariant reader.Valid() && NoLf(line) && |line| <= limit
      invariant line + reader.Rest() == all
      decreases |reader.Rest()|
    {
      var available := reader.FillBuf();
      ghost var rest := reader.Rest();
      if available == [] {
        assert line == all;
        NoNewline(line);
        return Ok(line);
      }
      TakeSlice(line, available, rest);
      var take := Newline(available);
      if |line| + take > limit {
        return Err(());
      }
      line := line + available[..take];
      reader.Consume(take);
      if EndsLine(line) {
        return Ok(line);
      }
    }
  }

  lemma {:induction false} NoLfInEmpty()
    ensures NoLf([])
  {
  }

  lemma {:induction false} NoNewline(line: Bytes)
    requires NoLf(line)
    ensures FirstLine(line) == |line|
  {
  }

  /** Where the slice is cut: after its first newline, or at its end. */
  method Newline(available: Bytes) returns (take: nat)
    requires available != []
    ensures take == FirstLine(available) > 0
  {
    hide FirstLine;
    take := 0;
    assert available[0..] == available;
    while take < |available|
      invariant take <= |available| && FirstLine(available) == take + FirstLine(available[take..])
    {
      FirstLineStep(available[take..]);
      assert available[take..][1..] == available[take + 1..];
      if available[take] == LF {
        return take + 1;
      }
      take := take + 1;
    }
    NoNewline([]);
  }

  lemma {:induction false} FirstLineStep(bytes: Bytes)
    requires bytes != []
    ensures FirstLine(bytes) == if bytes[0] == LF then 1 else 1 + FirstLine(bytes[1..])
  {
  }

  /** The line reader of the crew runtime. */
  method ReadBoundedLine(reader: BufferedReader, limit: nat) returns (r: Result<Option<Bytes>, ()>)
    requires reader.Valid()
    modifies reader
    ensures reader.Valid()
    ensures r == NextLine(old(reader.Rest()), limit, StripAll)
    ensures r.Ok? ==> reader.Rest() == old(reader.Rest())[FirstLine(old(reader.Rest()))..]
  {
    hide FirstLine;
    ghost var all := reader.Rest();
    NoNewline([]);
    var raw := ReadRaw(reader, limit);
    if raw.Err? {
      return Err(());
    }
    var line := raw.value;
    if line == [] {
      EmptyLine(all);
      return Ok(None);
    }
    while line != [] && (line[|line| - 1] == LF || line[|line| - 1] == CR)
      invariant StripAll(line) == StripAll(raw.value)
      decreases |line|
    {
      line := line[..|line| - 1];
    }
    r := Ok(Some(line));
  }

  lemma {:induction false} EmptyLine(bytes: Bytes)
    requires FirstLine(bytes) == 0
    ensures bytes == []
  {
  }

  /** The line reader of the MCP stdio client. */
  method ReadMcpLine(reader: BufferedReader, limit: nat) returns (r: Result<Option<Bytes>, ()>)
    requires reader.Valid()
    modifies reader
    ensures reader.Valid()
    ensures r == NextLine(old(reader.Rest()), limit, StripOne)
    ensures r.Ok? ==> reader.Rest() == old(reader.Rest())[FirstLine(old(reader.Rest()))..]
  {
    hide FirstLine;
    ghost var all := reader.Rest();
    NoNewline([]);
    var raw := ReadRaw(reader, limit);
    if raw.Err? {
      return Err(());
    }
    var line := raw.value;
    if line == [] {
      EmptyLine(all);
      return Ok(None);
    }
    if EndsLine(line) {
      line := line[..|line| - 1];
      if line != [] && line[|line| - 1] == CR {
        line := line[..|line| - 1];
      }
    }
    r := Ok(Some(line));
  }

  /** The next line of a stream, as the stream alone determines it. */
  function NextLine(bytes: Bytes, limit: nat, strip: Bytes -> Bytes): Result<Option<Bytes>, ()> {
    var n := FirstLine(bytes);
    if n > limit then Err(()) else if bytes == [] then Ok(None) else Ok(Some(strip(bytes[..n])))
  }

  /** All lines of a stream, by splitting it at its newlines. */
  function SplitLines(bytes: Bytes, strip: Bytes -> Bytes): seq<Bytes>
    decreases |bytes|
  {
    if bytes == [] then [] else [strip(bytes[..FirstLine(bytes)])] + SplitLines(bytes[FirstLine(bytes)..], strip)
  }

  /** Every line fits the limit together with its newline. */
  predicate LinesFit(bytes: Bytes, limit: nat)
    decreases |bytes|
  {
    bytes == [] || (FirstLine(bytes) <= limit && LinesFit(bytes[FirstLine(bytes)..], limit))
  }

  /** What one more line read means for all lines. */
  lemma {:induction false} LinesStep(bytes: Bytes, limit: nat, strip: Bytes -> Bytes)
    ensures var next := NextLine(bytes, limit, strip);
            var rest := bytes[FirstLine(bytes)..];
            && (next.Err? ==> !LinesFit(bytes, limit))
            && (next == Ok(None) ==> SplitLines(bytes, strip) == [] && LinesFit(bytes, limit))
            && (next.Ok? && next.value.Some? ==>
                  && |rest| < |bytes|
                  && (LinesFit(bytes, limit) <==> LinesFit(rest, limit))
                  && SplitLines(bytes, strip) == [next.value.value] + SplitLines(rest, strip))
  {
  }

  datatype Strip = CrewLines | McpLines

  function Stripped(strip: Strip): Bytes -> Bytes {
    match strip
    case CrewLines => StripAll
    case McpLines => StripOne
  }

  /** Reading to the end gives the lines of the whole stream, whatever slices it came in; it fails exactly when some
      line is too long. */
  method ReadAllLines(reader: BufferedReader, limit: nat, strip: Strip) returns (r: Result<seq<Bytes>, ()>)
    requires reader.Valid()
    modifies reader
    ensures r.Ok? <==> LinesFit(old(reader.Rest()), limit)
    ensures r.Ok? ==> r.value == SplitLines(old(reader.Rest()), Stripped(strip))
  {
    hide FirstLine, StripAll, StripOne, NextLine, SplitLines, LinesFit;
    ghost var all := reader.Rest();
    var lines: seq<Bytes> := [];
    while true
      invariant reader.Valid()
      invariant LinesFit(reader.Rest(), limit) <==> LinesFit(all, limit)
      invariant lines + SplitLines(reader.Rest(), Stripped(strip)) == SplitLines(all, Stripped(strip))
      decreases |reader.Rest()|
    {
      LinesStep(reader.Rest(), limit, Stripped(strip));
      var next: Result<Option<Bytes>, ()>;
      match strip {
        case CrewLines => next := ReadBoundedLine(reader, limit);
        case McpLines => next := ReadMcpLine(reader, limit);
      }
      if next.Err? {
        return Err(());
      }
      if next.value.None? {
        return Ok(lines);
      }
      lines := lines + [next.value.value];
    }
  }

  /** The byte reader keeps the first `limit` bytes and says whether there were more, however the reads fall. */
  method ReadBoundedBytes(file: FileHandle, limit: nat) returns (stored: Bytes, truncated: bool)
    requires file.Valid() && file.position == 0
    modifies file
    ensures stored == file.bytes[..Smaller(limit, |file.bytes|)]
    ensures truncated <==> |file.bytes| > limit
  {
    var buffer := new Byte[16 * 1024](_ => 0);
    stored, truncated := [], false;
    while true
      invariant file.Valid() && stored == file.bytes[..Smaller(limit, file.position)]
      invariant truncated <==> file.position > limit
      decreases |file.bytes| - file.position
    {
      ghost var before := file.position;
      var n := file.Read(buffer, 0);
      if n == 0 {
        break;
      }
      var remaining := limit - |stored|;
      var kept := Smaller(n, remaining);
      assert buffer[..kept] == buffer[0..0 + n][..kept] == file.bytes[before..before + n][..kept] ==
               file.bytes[before..before + kept];
      stored := stored + buffer[..kept];
      truncated := truncated || n > remaining;
    }
  }
}
