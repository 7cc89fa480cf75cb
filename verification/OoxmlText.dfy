/** Replacing text in a group of text nodes that a match may straddle. */
module OoxmlText {
  import opened Outcomes

  // ---- occurrences ----

  predicate OccursAt(s: string, sought: string, i: nat) {
    i + |sought| <= |s| && s[i..i + |sought|] == sought
  }

  /** `str::find`, from an offset. */
  function Find(s: string, sought: string, from: nat): (r: Option<nat>)
    requires from <= |s|
    ensures r.Some? ==>
              && from <= r.value && OccursAt(s, sought, r.value)
              && forall j :: from <= j < r.value ==> !OccursAt(s, sought, j)
    ensures r.None? ==> forall j :: from <= j <= |s| ==> !OccursAt(s, sought, j)
    decreases |s| - from
  {
    if OccursAt(s, sought, from) then Some(from)
    else if from == |s| then None
    else Find(s, sought, from + 1)
  }

  predicate Apart(starts: seq<nat>, n: nat) {
    forall i, j :: 0 <= i < j < |starts| ==> starts[i] + n <= starts[j]
  }

  /** Where the first `maximum` leftmost non-overlapping occurrences from an offset start. */
  function Starts(s: string, sought: string, from: nat, maximum: nat): (starts: seq<nat>)
    requires sought != "" && from <= |s|
    ensures |starts| <= maximum
    ensures forall k :: 0 <= k < |starts| ==> from <= starts[k] && OccursAt(s, sought, starts[k])
    ensures Apart(starts, |sought|)
    decreases |s| - from
  {
    if maximum == 0 then []
    else
      match Find(s, sought, from)
      case None => []
      case Some(i) => [i] + Starts(s, sought, i + |sought|, maximum - 1)
  }

  /** The text with those occurrences replaced. */
  function Replaced(s: string, sought: string, subst: string, from: nat, maximum: nat): string
    requires sought != "" && from <= |s|
    decreases |s| - from
  {
    if maximum == 0 then s[from..]
    else
      match Find(s, sought, from)
      case None => s[from..]
      case Some(i) => s[from..i] + subst + Replaced(s, sought, subst, i + |sought|, maximum - 1)
  }

  function Occurrences(s: string, sought: string): nat
    requires sought != ""
  {
    |Starts(s, sought, 0, |s|)|
  }

  lemma {:induction false} StartsBounded(s: string, sought: string, from: nat, m: nat, n: nat)
    requires sought != "" && from <= |s| && n >= |s| - from
    ensures |Starts(s, sought, from, m)| == if m < |Starts(s, sought, from, n)| then m else |Starts(s, sought, from, n)|
    decreases |s| - from
  {
    if m > 0 && n > 0 && Find(s, sought, from).Some? {
      StartsBounded(s, sought, Find(s, sought, from).value + |sought|, m - 1, n - 1);
    }
  }

  lemma {:induction false} OccursBehind(s: string, sought: string, from: nat, i: nat)
    requires from <= |s|
    ensures OccursAt(s[from..], sought, i) <==> OccursAt(s, sought, from + i)
  {
    if from + i + |sought| <= |s| {
      assert s[from..][i..i + |sought|] == s[from + i..from + i + |sought|];
    }
  }

  /** Searching from an offset is searching what follows it. */
  lemma {:induction false} FindBehind(s: string, sought: string, from: nat, at: nat)
    requires from + at <= |s|
    ensures var r := Find(s[from..], sought, at);
            Find(s, sought, from + at) == if r.None? then None else Some(from + r.value)
    decreases |s| - from - at
  {
    hide OccursAt;
    OccursBehind(s, sought, from, at);
    if !OccursAt(s, sought, from + at) && from + at < |s| {
      FindBehind(s, sought, from, at + 1);
    }
  }

  lemma {:induction false} ReplacedBehind(s: string, sought: string, subst: string, from: nat, at: nat, maximum: nat)
    requires sought != "" && from + at <= |s|
    ensures Replaced(s, sought, subst, from + at, maximum) == Replaced(s[from..], sought, subst, at, maximum)
    decreases maximum
  {
    hide OccursAt;
    FindBehind(s, sought, from, at);
    assert s[from..][at..] == s[from + at..];
    if maximum > 0 {
      match Find(s[from..], sought, at) {
        case None =>
        case Some(i) =>
          EndsWithin(s[from..], sought, i);
          ReplacedBehind(s, sought, subst, from, i + |sought|, maximum - 1);
          assert s[from..][at..i] == s[from + at..from + i];
      }
    }
  }

  lemma {:induction false} EndsWithin(s: string, sought: string, i: nat)
    requires OccursAt(s, sought, i)
    ensures i + |sought| <= |s|
  {
  }

  /** Nothing in front of `before + sought` ends with the sought text. */
  ghost predicate Leftmost(before: string, sought: string, after: string) {
    forall p, q :: p + sought + q == before + sought + after ==> |before| <= |p|
  }

  lemma {:induction false} OccursIff(s: string, sought: string, i: nat)
    ensures OccursAt(s, sought, i) <==> exists p, q :: s == p + sought + q && |p| == i
  {
    if OccursAt(s, sought, i) {
      assert s == s[..i] + sought + s[i + |sought|..];
    }
    forall p, q | s == p + sought + q && |p| == i
      ensures OccursAt(s, sought, i)
    {
      assert s[i..i + |sought|] == sought;
    }
  }

  lemma {:induction false} FindsLeftmost(before: string, sought: string, after: string)
    requires Leftmost(before, sought, after)
    ensures Find(before + sought + after, sought, 0) == Some(|before|)
  {
    var s := before + sought + after;
    OccursIff(s, sought, |before|);
    forall j: nat | j < |before|
      ensures !OccursAt(s, sought, j)
    {
      OccursIff(s, sought, j);
    }
    hide OccursAt, Leftmost;
  }

  /** What replacing means, on the text itself: one leftmost occurrence after the other, and nothing else. */
  lemma {:induction false} ReplacedMeans(before: string, sought: string, after: string, subst: string, maximum: nat)
    requires sought != "" && Leftmost(before, sought, after)
    ensures Replaced(before + sought + after, sought, subst, 0, maximum) ==
              if maximum == 0 then before + sought + after
              else before + subst + Replaced(after, sought, subst, 0, maximum - 1)
  {
    FindsLeftmost(before, sought, after);
    FirstIsReplaced(before + sought + after, sought, subst, |before|, maximum);
    hide *;
    CutAround(before, sought, after);
  }

  lemma {:induction false} CutAround(before: string, sought: string, after: string)
    ensures var s := before + sought + after; s[..|before|] == before && s[|before| + |sought|..] == after
  {
  }

  lemma {:induction false} FirstIsReplaced(s: string, sought: string, subst: string, i: nat, maximum: nat)
    requires sought != "" && Find(s, sought, 0) == Some(i) && i + |sought| <= |s|
    ensures Replaced(s, sought, subst, 0, maximum) ==
              if maximum == 0 then s
              else s[..i] + subst + Replaced(s[i + |sought|..], sought, subst, 0, maximum - 1)
  {
    hide *;
    FirstMatch(s, sought, subst, i, maximum);
    assert s[0..] == s && s[0..i] == s[..i];
    if maximum > 0 {
      ReplacedBehind(s, sought, subst, i + |sought|, 0, maximum - 1);
    }
  }

  lemma {:induction false} FirstMatch(s: string, sought: string, subst: string, i: nat, maximum: nat)
    requires sought != "" && Find(s, sought, 0) == Some(i) && i + |sought| <= |s|
    ensures Replaced(s, sought, subst, 0, maximum) ==
              if maximum == 0 then s[0..]
              else s[0..i] + subst + Replaced(s, sought, subst, i + |sought|, maximum - 1)
  {
    hide OccursAt, Find;
  }

  /** A text without the sought one stays as it is. */
  lemma {:induction false} NothingReplaced(s: string, sought: string, subst: string, maximum: nat)
    requires sought != "" && forall p, q :: s != p + sought + q
    ensures Replaced(s, sought, subst, 0, maximum) == s
  {
    assert s[0..] == s;
    forall j: nat | j <= |s|
      ensures !OccursAt(s, sought, j)
    {
      OccursIff(s, sought, j);
    }
    hide OccursAt;
    assert Find(s, sought, 0).None?;
  }

  // ---- what a position of the joined text contributes to the output ----

  predicate Covered(starts: seq<nat>, n: nat, q: nat) {
    exists k :: 0 <= k < |starts| && starts[k] <= q < starts[k] + n
  }

  /** The start of a match contributes the new text, the rest of the match nothing, any other position its character. */
  function Emit(s: string, subst: string, starts: seq<nat>, n: nat, q: nat): string
    requires q < |s|
  {
    if q in starts then subst else if Covered(starts, n, q) then "" else [s[q]]
  }

  function Span(s: string, subst: string, starts: seq<nat>, n: nat, a: nat, b: nat): string
    requires a <= b <= |s|
    decreases b
  {
    if a == b then "" else Span(s, subst, starts, n, a, b - 1) + Emit(s, subst, starts, n, b - 1)
  }

  lemma {:induction false} SpanSplits(s: string, subst: string, starts: seq<nat>, n: nat, a: nat, m: nat, b: nat)
    requires a <= m <= b <= |s|
    ensures Span(s, subst, starts, n, a, b) == Span(s, subst, starts, n, a, m) + Span(s, subst, starts, n, m, b)
    decreases b
  {
    if m < b {
      SpanSplits(s, subst, starts, n, a, m, b - 1);
    }
  }

  lemma {:induction false} StartIsCovered(starts: seq<nat>, n: nat, q: nat)
    requires n > 0
    ensures q in starts ==> Covered(starts, n, q)
  {
    if q in starts {
      var k :| 0 <= k < |starts| && starts[k] == q;
      assert starts[k] <= q < starts[k] + n;
    }
  }

  lemma {:induction false} InsideIsNoStart(starts: seq<nat>, n: nat, k: nat, q: nat)
    requires Apart(starts, n) && k < |starts| && starts[k] < q < starts[k] + n
    ensures q !in starts && Covered(starts, n, q)
  {
    forall i | 0 <= i < |starts| ensures starts[i] != q {
      assert i < k ==> starts[i] + n <= starts[k];
      assert k < i ==> starts[k] + n <= starts[i];
    }
  }

  lemma {:induction false} SpanOutside(s: string, subst: string, starts: seq<nat>, n: nat, a: nat, b: nat)
    requires a <= b <= |s| && n > 0
    requires forall q :: a <= q < b ==> !Covered(starts, n, q)
    ensures Span(s, subst, starts, n, a, b) == s[a..b]
    decreases b
  {
    hide Covered;
    if a < b {
      SpanOutside(s, subst, starts, n, a, b - 1);
      StartIsCovered(starts, n, b - 1);
      assert s[a..b] == s[a..b - 1] + [s[b - 1]];
    }
  }

  lemma {:induction false} SpanInside(s: string, subst: string, starts: seq<nat>, n: nat, k: nat, a: nat, b: nat)
    requires k < |starts| && starts[k] < a <= b <= starts[k] + n && b <= |s|
    requires Apart(starts, n)
    ensures Span(s, subst, starts, n, a, b) == ""
    decreases b
  {
    if a < b {
      SpanInside(s, subst, starts, n, k, a, b - 1);
      InsideIsNoStart(starts, n, k, b - 1);
    }
  }

  lemma {:induction false} SpanOne(s: string, subst: string, starts: seq<nat>, n: nat, q: nat)
    requires q < |s|
    ensures Span(s, subst, starts, n, q, q + 1) == Emit(s, subst, starts, n, q)
  {
    assert Span(s, subst, starts, n, q, q) == "";
  }

  /** A match contributes the new text at its start and nothing after it. */
  lemma {:induction false} SpanMatch(s: string, subst: string, starts: seq<nat>, n: nat, k: nat, b: nat)
    requires k < |starts| && starts[k] < b <= starts[k] + n && b <= |s|
    requires Apart(starts, n)
    ensures Span(s, subst, starts, n, starts[k], b) == subst
  {
    SpanSplits(s, subst, starts, n, starts[k], starts[k] + 1, b);
    SpanInside(s, subst, starts, n, k, starts[k] + 1, b);
    SpanOne(s, subst, starts, n, starts[k]);
    hide Span;
  }

  /** Position by position, the whole output is the joined text with the occurrences replaced. */
  lemma {:induction false} SpanIsReplaced(s: string, sought: string, subst: string, maximum: nat, starts: seq<nat>,
                                          k: nat, from: nat)
    requires sought != "" && from <= |s| && k <= |starts| && k <= maximum
    requires Apart(starts, |sought|)
    requires starts[k..] == Starts(s, sought, from, maximum - k)
    requires k > 0 ==> from == starts[k - 1] + |sought|
    ensures Span(s, subst, starts, |sought|, from, |s|) == Replaced(s, sought, subst, from, maximum - k)
    decreases |s| - from
  {
    var n := |sought|;
    hide Span, Starts, Find, Covered, OccursAt, Apart;
    PastMatches(starts, n, k, from);
    if k == |starts| {
      NoneLeft(s, sought, starts, maximum, k, from);
      SpanOutside(s, subst, starts, n, from, |s|);
    } else {
      var i := starts[k];
      NextMatch(s, sought, starts, maximum, k, from);
      SpanSplits(s, subst, starts, n, from, i, |s|);
      SpanSplits(s, subst, starts, n, i, i + n, |s|);
      SpanOutside(s, subst, starts, n, from, i);
      SpanMatch(s, subst, starts, n, k, i + n);
      SpanIsReplaced(s, sought, subst, maximum, starts, k + 1, i + n);
    }
  }

  lemma {:induction false} PastMatches(starts: seq<nat>, n: nat, k: nat, from: nat)
    requires Apart(starts, n) && k <= |starts| && (k > 0 ==> from == starts[k - 1] + n)
    ensures forall i :: 0 <= i < k ==> starts[i] + n <= from
    ensures forall q :: from <= q && (k < |starts| ==> q < starts[k]) ==> !Covered(starts, n, q)
  {
    forall i | 0 <= i < k ensures starts[i] + n <= from {
      assert i < k - 1 ==> starts[i] + n <= starts[k - 1];
    }
    assert forall i :: k < i < |starts| ==> starts[k] + n <= starts[i];
  }

  lemma {:induction false} NextMatch(s: string, sought: string, starts: seq<nat>, maximum: nat, k: nat, from: nat)
    requires sought != "" && from <= |s| && k < |starts| && k <= maximum
    requires starts[k..] == Starts(s, sought, from, maximum - k)
    ensures k < maximum && from <= starts[k] && starts[k] + |sought| <= |s|
    ensures Find(s, sought, from) == Some(starts[k])
    ensures starts[k + 1..] == Starts(s, sought, starts[k] + |sought|, maximum - k - 1)
  {
    var rest := starts[k..];
    assert rest[0] == starts[k];
    assert rest[1..] == starts[k + 1..];
  }

  lemma {:induction false} NoneLeft(s: string, sought: string, starts: seq<nat>, maximum: nat, k: nat, from: nat)
    requires sought != "" && from <= |s| && k == |starts| && k <= maximum
    requires starts[k..] == Starts(s, sought, from, maximum - k)
    ensures maximum == k || Find(s, sought, from).None?
  {
  }

  // ---- nodes ----

  function Concat(texts: seq<string>): string {
    if texts == [] then "" else Concat(texts[..|texts| - 1]) + texts[|texts| - 1]
  }

  /** Where node `i` begins in the joined text. */
  function Offset(texts: seq<string>, i: nat): (o: nat)
    requires i <= |texts|
    ensures o <= |Concat(texts[..i])| && o == |Concat(texts[..i])|
  {
    if i == 0 then 0
    else
      assert texts[..i][..i - 1] == texts[..i - 1];
      Offset(texts, i - 1) + |texts[i - 1]|
  }

  lemma {:induction false} OffsetsAscend(texts: seq<string>, i: nat, j: nat)
    requires i <= j <= |texts|
    ensures Offset(texts, i) <= Offset(texts, j) <= |Concat(texts)|
    decreases j - i, |texts| - j
  {
    if i < j {
      OffsetsAscend(texts, i, j - 1);
    }
    ConcatPrefix(texts, j);
  }

  lemma {:induction false} ConcatPrefix(texts: seq<string>, i: nat)
    requires i <= |texts|
    ensures Concat(texts[..i]) <= Concat(texts)
    decreases |texts| - i
  {
    if i < |texts| {
      ConcatPrefix(texts, i + 1);
      assert texts[..i + 1][..i] == texts[..i];
    } else {
      assert texts[..i] == texts;
    }
  }

  lemma {:induction false} NodeText(texts: seq<string>, i: nat)
    requires i < |texts|
    ensures Offset(texts, i) <= Offset(texts, i + 1) <= |Concat(texts)|
    ensures Concat(texts)[Offset(texts, i)..Offset(texts, i + 1)] == texts[i]
  {
    OffsetsAscend(texts, i, i + 1);
    ConcatPrefix(texts, i + 1);
    assert texts[..i + 1][..i] == texts[..i];
    assert Concat(texts[..i + 1]) == Concat(texts[..i]) + texts[i];
  }

  /** What each node becomes. */
  function NodeOutput(texts: seq<string>, subst: string, starts: seq<nat>, n: nat, i: nat): string
    requires i < |texts|
  {
    NodeText(texts, i);
    Span(Concat(texts), subst, starts, n, Offset(texts, i), Offset(texts, i + 1))
  }

  lemma {:induction false} OutputsJoin(texts: seq<string>, subst: string, starts: seq<nat>, n: nat,
                                       outputs: seq<string>, i: nat)
    requires |outputs| == |texts| && i <= |texts|
    requires forall j :: 0 <= j < |texts| ==> outputs[j] == NodeOutput(texts, subst, starts, n, j)
    ensures Offset(texts, i) <= |Concat(texts)|
    ensures Concat(outputs[..i]) == Span(Concat(texts), subst, starts, n, 0, Offset(texts, i))
  {
    OffsetsAscend(texts, i, |texts|);
    if i > 0 {
      OutputsJoin(texts, subst, starts, n, outputs, i - 1);
      NodeText(texts, i - 1);
      SpanSplits(Concat(texts), subst, starts, n, 0, Offset(texts, i - 1), Offset(texts, i));
      assert outputs[..i][..i - 1] == outputs[..i - 1];
    }
  }

  /** Joining the new node texts gives the joined old text with the first `maximum` occurrences replaced. */
  lemma {:induction false} OutputsAreReplaced(texts: seq<string>, sought: string, subst: string, maximum: nat,
                                              outputs: seq<string>)
    requires sought != "" && |outputs| == |texts|
    requires var starts := Starts(Concat(texts), sought, 0, maximum);
             forall j :: 0 <= j < |texts| ==> outputs[j] == NodeOutput(texts, subst, starts, |sought|, j)
    ensures Concat(outputs) == Replaced(Concat(texts), sought, subst, 0, maximum)
  {
    hide Starts, Replaced, Span, Find;
    var starts := Starts(Concat(texts), sought, 0, maximum);
    OutputsJoin(texts, subst, starts, |sought|, outputs, |texts|);
    assert outputs[..|texts|] == outputs && texts[..|texts|] == texts;
    assert starts[0..] == starts;
    SpanIsReplaced(Concat(texts), sought, subst, maximum, starts, 0, 0);
  }

  /** A node that no match overlaps keeps its text. */
  lemma {:induction false} UntouchedNodeKeepsText(texts: seq<string>, subst: string, starts: seq<nat>, n: nat, i: nat)
    requires i < |texts| && n > 0
    requires forall q :: Offset(texts, i) <= q < Offset(texts, i + 1) ==> !Covered(starts, n, q)
    ensures NodeOutput(texts, subst, starts, n, i) == texts[i]
  {
    NodeText(texts, i);
    SpanOutside(Concat(texts), subst, starts, n, Offset(texts, i), Offset(texts, i + 1));
  }
}
