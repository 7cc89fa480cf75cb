/** Lines of a text, as the standard library splits them. */
module TextLines {
  /** Where a character first occurs, or the length of the text. */
  function IndexOf(text: string, c: char): (n: nat)
    ensures n <= |text| && (forall i :: 0 <= i < n ==> text[i] != c) && (n < |text| ==> text[n] == c)
  {
    if text == "" || text[0] == c then 0 else 1 + IndexOf(text[1..], c)
  }

  function StripReturn(line: string): string {
    if line != "" && line[|line| - 1] == '\r' then line[..|line| - 1] else line
  }

  /** The lines of a text, as `str::lines` gives them. */
  function Lines(text: string): seq<string>
    decreases |text|
  {
    if text == "" then []
    else
      var n := IndexOf(text, '\n');
      if n == |text| then [text] else [StripReturn(text[..n])] + Lines(text[n + 1..])
  }

  /** Line by line: a newline ends a line, a carriage return before it belongs to the end, and what follows the last
      newline is a line if there is anything. */
  lemma {:induction false} LinesMean(line: string, rest: string)
    requires '\n' !in line
    ensures Lines("") == []
    ensures line != "" ==> Lines(line) == [line]
    ensures Lines(line + "\r\n" + rest) == [line] + Lines(rest)
    ensures (line == "" || line[|line| - 1] != '\r') ==> Lines(line + "\n" + rest) == [line] + Lines(rest)
  {
    var text, marked := line + "\n" + rest, line + "\r\n" + rest;
    assert forall i :: 0 <= i < |line| ==> text[i] == line[i] && marked[i] == line[i] && line[i] in line;
    assert text[|line|] == '\n' && marked[|line|] == '\r' && marked[|line| + 1] == '\n';
    assert text[..|line|] == line && text[|line| + 1..] == rest;
    assert marked[..|line| + 1] == line + "\r" && marked[|line| + 2..] == rest;
    assert (line + "\r")[..|line|] == line;
    assert IndexOf(text, '\n') == |line| && IndexOf(marked, '\n') == |line| + 1;
    hide Lines, IndexOf;
    assert Lines(text) == [StripReturn(line)] + Lines(rest) && Lines(marked) == [line] + Lines(rest) by {
      CutAtNewline(text);
      CutAtNewline(marked);
    }
    CutAtNewline(line);
    CutAtNewline("");
  }

  lemma {:induction false} CutAtNewline(text: string)
    ensures var n := IndexOf(text, '\n');
            && n <= |text|
            && Lines(text) == if text == "" then []
                              else if n == |text| then [text]
                              else [StripReturn(text[..n])] + Lines(text[n + 1..])
  {
  }
}
