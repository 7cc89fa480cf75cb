/** The in-place redistribution of a group's replaced text over its nodes. */
module OoxmlGroup {
  import opened Machine
  import opened Outcomes
  import opened OoxmlText

  function Slice(s: string, a: nat, b: nat): string
    requires b <= |s|
  {
    if a < b then s[a..b] else ""
  }

  /** How much of the node `[a, b)` lies before the cursor. */
  function Clamp(c: nat, a: nat, b: nat): nat
    requires a <= b
  {
    Larger(a, Smaller(c, b))
  }

  lemma {:induction false} AdvancePlain(s: string, subst: string, starts: seq<nat>, n: nat, a: nat, b: nat, cursor: nat,
                                        start: nat)
    requires a <= b <= |s| && cursor <= start <= |s| && n > 0
    requires forall q :: cursor <= q < start ==> !Covered(starts, n, q)
    ensures Span(s, subst, starts, n, a, Clamp(start, a, b))
            == Span(s, subst, starts, n, a, Clamp(cursor, a, b)) + Slice(s, Larger(cursor, a), Smaller(start, b))
  {
    var x, y := Clamp(cursor, a, b), Clamp(start, a, b);
    SpanSplits(s, subst, starts, n, a, x, y);
    SpanOutside(s, subst, starts, n, x, y);
  }

  lemma {:induction false} AdvanceMatch(s: string, subst: string, starts: seq<nat>, n: nat, k: nat, a: nat, b: nat)
    requires a <= b <= |s| && n > 0 && k < |starts| && starts[k] + n <= |s| && Apart(starts, n)
    ensures Span(s, subst, starts, n, a, Clamp(starts[k] + n, a, b))
            == Span(s, subst, starts, n, a, Clamp(starts[k], a, b)) + if a <= starts[k] < b then subst else ""
  {
    var x, y := Clamp(starts[k], a, b), Clamp(starts[k] + n, a, b);
    SpanSplits(s, subst, starts, n, a, x, y);
    hide Span;
    if starts[k] + n <= a {
      SpanEmpty(s, subst, starts, n, a);
    } else if starts[k] < a {
      SpanInside(s, subst, starts, n, k, x, y);
    } else if starts[k] < b {
      SpanMatch(s, subst, starts, n, k, y);
    } else {
      SpanEmpty(s, subst, starts, n, b);
    }
  }

  lemma {:induction false} SpanEmpty(s: string, subst: string, starts: seq<nat>, n: nat, a: nat)
    requires a <= |s|
    ensures Span(s, subst, starts, n, a, a) == ""
  {
  }

  predicate RangesFit(ranges: seq<(nat, nat)>, length: nat) {
    forall i :: 0 <= i < |ranges| ==> ranges[i].0 <= ranges[i].1 <= length
  }

  method DistributeText(joined: string, start: nat, end: nat, ranges: seq<(nat, nat)>, outputs: array<string>)
    requires end <= |joined| && outputs.Length == |ranges| && RangesFit(ranges, |joined|)
    modifies outputs
    ensures forall i :: 0 <= i < |ranges| ==>
              outputs[i] == old(outputs[i]) + Slice(joined, Larger(start, ranges[i].0), Smaller(end, ranges[i].1))
  {
    if start >= end {
      return;
    }
    for index := 0 to |ranges|
      invariant forall i :: 0 <= i < index ==>
                  outputs[i] == old(outputs[i]) + Slice(joined, Larger(start, ranges[i].0), Smaller(end, ranges[i].1))
      invariant forall i :: index <= i < |ranges| ==> outputs[i] == old(outputs[i])
    {
      var overlapStart := Larger(start, ranges[index].0);
      var overlapEnd := Smaller(end, ranges[index].1);
      if overlapStart < overlapEnd {
        outputs[index] := outputs[index] + joined[overlapStart..overlapEnd];
      }
    }
  }

  method JoinNodes(texts: seq<string>) returns (joined: string, ranges: seq<(nat, nat)>)
    ensures joined == Concat(texts) && |ranges| == |texts| && RangesFit(ranges, |joined|)
    ensures forall i :: 0 <= i < |texts| ==> ranges[i] == (Offset(texts, i), Offset(texts, i + 1))
  {
    joined, ranges := "", [];
    var offset := 0;
    for i := 0 to |texts|
      invariant joined == Concat(texts[..i]) && |ranges| == i && offset == Offset(texts, i)
      invariant forall j :: 0 <= j < i ==> ranges[j] == (Offset(texts, j), Offset(texts, j + 1))
    {
      assert texts[..i + 1][..i] == texts[..i];
      joined := joined + texts[i];
      var end := offset + |texts[i]|;
      ranges := ranges + [(offset, end)];
      offset := end;
    }
    assert texts[..|texts|] == texts;
    forall i | 0 <= i < |texts| ensures ranges[i].0 <= ranges[i].1 <= |joined| {
      NodeText(texts, i);
    }
  }

  /** The first node that contains the position, if there is one. */
  function NodeAt(ranges: seq<(nat, nat)>, q: nat): (r: Option<nat>)
    ensures r.Some? ==> r.value < |ranges| && ranges[r.value].0 <= q < ranges[r.value].1
    ensures r.None? ==> forall i :: 0 <= i < |ranges| ==> !(ranges[i].0 <= q < ranges[i].1)
    ensures r.Some? ==> forall i :: 0 <= i < r.value ==> !(ranges[i].0 <= q < ranges[i].1)
  {
    if ranges == [] then None
    else
      match NodeAt(ranges[..|ranges| - 1], q)
      case Some(i) => Some(i)
      case None =>
        var last := ranges[|ranges| - 1];
        if last.0 <= q < last.1 then Some(|ranges| - 1) else None
  }

  predicate Disjoint(ranges: seq<(nat, nat)>) {
    forall i, j :: 0 <= i < j < |ranges| ==> ranges[i].1 <= ranges[j].0
  }

  lemma {:induction false} OffsetsDisjoint(texts: seq<string>, ranges: seq<(nat, nat)>)
    requires |ranges| == |texts|
    requires forall i :: 0 <= i < |texts| ==> ranges[i] == (Offset(texts, i), Offset(texts, i + 1))
    ensures Disjoint(ranges)
  {
    forall i, j | 0 <= i < j < |ranges| ensures ranges[i].1 <= ranges[j].0 {
      OffsetsAscend(texts, i + 1, j);
      assert ranges[i] == (Offset(texts, i), Offset(texts, i + 1))
             && ranges[j] == (Offset(texts, j), Offset(texts, j + 1));
    }
  }

  ghost predicate Progress(s: string, subst: string, starts: seq<nat>, n: nat, ranges: seq<(nat, nat)>, cursor: nat,
                           outputs: seq<string>)
    requires RangesFit(ranges, |s|)
  {
    && |outputs| == |ranges|
    && forall i :: 0 <= i < |ranges| ==>
         outputs[i] == Span(s, subst, starts, n, ranges[i].0, Clamp(cursor, ranges[i].0, ranges[i].1))
  }

  lemma {:induction false} ProgressPlain(s: string, subst: string, starts: seq<nat>, n: nat, ranges: seq<(nat, nat)>,
                                         cursor: nat, start: nat, before: seq<string>, after: seq<string>)
    requires RangesFit(ranges, |s|) && cursor <= start <= |s| && n > 0
    requires forall q :: cursor <= q < start ==> !Covered(starts, n, q)
    requires Progress(s, subst, starts, n, ranges, cursor, before) && |after| == |ranges|
    requires forall i :: 0 <= i < |ranges| ==>
               after[i] == before[i] + Slice(s, Larger(cursor, ranges[i].0), Smaller(start, ranges[i].1))
    ensures Progress(s, subst, starts, n, ranges, start, after)
  {
    hide Span, Covered;
    forall i | 0 <= i < |ranges|
      ensures after[i] == Span(s, subst, starts, n, ranges[i].0, Clamp(start, ranges[i].0, ranges[i].1))
    {
      AdvancePlain(s, subst, starts, n, ranges[i].0, ranges[i].1, cursor, start);
    }
  }

  lemma {:induction false} ProgressMatch(s: string, subst: string, starts: seq<nat>, n: nat, k: nat,
                                         ranges: seq<(nat, nat)>, before: seq<string>, after: seq<string>)
    requires RangesFit(ranges, |s|) && Disjoint(ranges) && n > 0 && Apart(starts, n)
    requires k < |starts| && starts[k] + n <= |s|
    requires Progress(s, subst, starts, n, ranges, starts[k], before)
    requires after == match NodeAt(ranges, starts[k])
                      case Some(i) => before[i := before[i] + subst]
                      case None => before
    ensures Progress(s, subst, starts, n, ranges, starts[k] + n, after)
  {
    hide Span, Covered;
    var at := NodeAt(ranges, starts[k]);
    forall i | 0 <= i < |ranges|
      ensures after[i] == Span(s, subst, starts, n, ranges[i].0, Clamp(starts[k] + n, ranges[i].0, ranges[i].1))
    {
      AdvanceMatch(s, subst, starts, n, k, ranges[i].0, ranges[i].1);
      assert at.Some? && at.value < i ==> ranges[at.value].1 <= ranges[i].0;
    }
  }

  method PlaceMatch(joined: string, subst: string, n: nat, cursor: nat, start: nat, ranges: seq<(nat, nat)>,
                    pieces: array<string>, ghost starts: seq<nat>, ghost k: nat)
    requires RangesFit(ranges, |joined|) && Disjoint(ranges) && n > 0 && Apart(starts, n)
    requires k < |starts| && start == starts[k] && cursor <= start && start + n <= |joined|
    requires forall q :: cursor <= q < start ==> !Covered(starts, n, q)
    requires Progress(joined, subst, starts, n, ranges, cursor, pieces[..])
    modifies pieces
    ensures Progress(joined, subst, starts, n, ranges, start + n, pieces[..])
  {
    hide Span, Covered;
    ghost var before := pieces[..];
    DistributeText(joined, cursor, start, ranges, pieces);
    ProgressPlain(joined, subst, starts, n, ranges, cursor, start, before, pieces[..]);
    ghost var middle := pieces[..];
    var index := NodeAt(ranges, start);
    if index.Some? {
      pieces[index.value] := pieces[index.value] + subst;
    }
    ProgressMatch(joined, subst, starts, n, k, ranges, middle, pieces[..]);
  }

  method PlaceRest(joined: string, ghost subst: string, ghost n: nat, cursor: nat, ranges: seq<(nat, nat)>,
                   pieces: array<string>, ghost starts: seq<nat>)
    requires RangesFit(ranges, |joined|) && n > 0 && cursor <= |joined|
    requires forall q :: cursor <= q < |joined| ==> !Covered(starts, n, q)
    requires Progress(joined, subst, starts, n, ranges, cursor, pieces[..])
    modifies pieces
    ensures Progress(joined, subst, starts, n, ranges, |joined|, pieces[..])
  {
    hide Span, Covered;
    ghost var before := pieces[..];
    DistributeText(joined, cursor, |joined|, ranges, pieces);
    ProgressPlain(joined, subst, starts, n, ranges, cursor, |joined|, before, pieces[..]);
  }

  lemma {:induction false} ProgressDone(texts: seq<string>, subst: string, starts: seq<nat>, n: nat,
                                        ranges: seq<(nat, nat)>, outputs: seq<string>)
    requires |ranges| == |texts| && RangesFit(ranges, |Concat(texts)|)
    requires forall i :: 0 <= i < |texts| ==> ranges[i] == (Offset(texts, i), Offset(texts, i + 1))
    requires Progress(Concat(texts), subst, starts, n, ranges, |Concat(texts)|, outputs)
    ensures |outputs| == |texts|
    ensures forall i :: 0 <= i < |texts| ==> outputs[i] == NodeOutput(texts, subst, starts, n, i)
  {
    hide Span;
    forall i | 0 <= i < |texts| ensures outputs[i] == NodeOutput(texts, subst, starts, n, i) {
      assert ranges[i] == (Offset(texts, i), Offset(texts, i + 1));
    }
  }

  /** Each node gets its share of the replaced text, and `count` matches are replaced. */
  method ReplaceGroup(texts: seq<string>, sought: string, subst: string, maximum: nat)
    returns (outputs: seq<string>, count: nat)
    requires sought != ""
    ensures |outputs| == |texts|
    ensures var starts := Starts(Concat(texts), sought, 0, maximum);
            && count == |starts|
            && forall i :: 0 <= i < |texts| ==> outputs[i] == NodeOutput(texts, subst, starts, |sought|, i)
  {
    hide Span, Covered, Starts, Find, Replaced, Concat, Progress, Offset, NodeOutput, Apart, OccursAt, Disjoint;
    var joined, ranges := JoinNodes(texts);
    OffsetsDisjoint(texts, ranges);
    var pieces := new string[|texts|](_ => "");
    var cursor: nat := 0;
    count := 0;
    ghost var starts := Starts(joined, sought, 0, maximum);
    ghost var n := |sought|;
    assert starts[0..] == starts;
    ProgressStart(joined, subst, starts, n, ranges, pieces[..]);
    while count < maximum
      invariant cursor <= |joined| && count <= |starts| && count <= maximum
      invariant count > 0 ==> cursor == starts[count - 1] + n
      invariant starts[count..] == Starts(joined, sought, cursor, maximum - count)
      invariant Progress(joined, subst, starts, n, ranges, cursor, pieces[..])
    {
      PastMatches(starts, n, count, cursor);
      var found := Find(joined, sought, cursor);
      if found.None? {
        break;
      }
      SomethingFound(joined, sought, starts, cursor, maximum, count);
      PlaceMatch(joined, subst, |sought|, cursor, found.value, ranges, pieces, starts, count);
      NextMatch(joined, sought, starts, maximum, count, cursor);
      cursor := found.value + |sought|;
      count := count + 1;
    }
    AllTaken(joined, sought, starts, cursor, maximum, count);
    PastMatches(starts, n, count, cursor);
    PlaceRest(joined, subst, n, cursor, ranges, pieces, starts);
    outputs := pieces[..];
    ProgressDone(texts, subst, starts, n, ranges, outputs);
  }

  lemma {:induction false} ProgressStart(s: string, subst: string, starts: seq<nat>, n: nat, ranges: seq<(nat, nat)>,
                                         outputs: seq<string>)
    requires RangesFit(ranges, |s|) && |outputs| == |ranges| && forall i :: 0 <= i < |outputs| ==> outputs[i] == ""
    ensures Progress(s, subst, starts, n, ranges, 0, outputs)
  {
  }

  lemma {:induction false} SomethingFound(s: string, sought: string, starts: seq<nat>, from: nat, maximum: nat,
                                          count: nat)
    requires sought != "" && from <= |s| && Find(s, sought, from).Some? && count < maximum && count <= |starts|
    requires starts[count..] == Starts(s, sought, from, maximum - count)
    ensures count < |starts| && starts[count] == Find(s, sought, from).value && starts[count] + |sought| <= |s|
  {
    assert starts[count..][0] == starts[count];
  }

  lemma {:induction false} AllTaken(s: string, sought: string, starts: seq<nat>, from: nat, maximum: nat, count: nat)
    requires sought != "" && from <= |s| && count <= |starts| && count <= maximum
    requires starts[count..] == Starts(s, sought, from, maximum - count)
    requires count == maximum || Find(s, sought, from).None?
    ensures count == |starts|
  {
  }
}
