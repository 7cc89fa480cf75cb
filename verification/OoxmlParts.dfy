/** The replacement budget over the parts of an Office document. */
module OoxmlParts {
  import opened Machine
  import opened Outcomes
  import opened OoxmlText
  import opened OoxmlGroup
  import opened OoxmlRuns
  import opened OoxmlRewrite

  /** An archive entry: whether its name is an editable part, and its events if it is UTF-8. */
  datatype Part = Part(editable: bool, events: Option<seq<Event>>)

  datatype PartError = TooLarge | Malformed | NotFound

  const MAX_OFFICE_ENTRY_BYTES: nat := 64 * 1024 * 1024
  const MAX_OFFICE_TOTAL_BYTES: nat := 512 * 1024 * 1024

  predicate Readable(p: Part) {
    p.editable && p.events.Some?
  }

  function NodesOfPart(p: Part): seq<Node> {
    if Readable(p) && Collect(p.events.value).Ok? then Collect(p.events.value).value.nodes else []
  }

  function CountIn(p: Part, sought: string, budget: nat): (n: nat)
    requires sought != ""
    ensures n <= budget
  {
    Count(NodesOfPart(p), sought, budget)
  }

  function OccurrencesIn(p: Part, sought: string): nat
    requires sought != ""
  {
    TotalOccurrences(NodesOfPart(p), sought)
  }

  lemma {:induction false} CountInIsBudgetOrAll(p: Part, sought: string, budget: nat)
    requires sought != ""
    ensures CountIn(p, sought, budget) == Smaller(budget, OccurrencesIn(p, sought))
  {
    hide NodesOfPart, Count, TotalOccurrences;
    CountIsBudgetOrAll(NodesOfPart(p), sought, budget);
  }

  /** How many replacements the parts before index `i` make. */
  function Made(parts: seq<Part>, sought: string, maximum: nat, i: nat): (n: nat)
    requires sought != "" && i <= |parts|
    ensures n <= maximum
  {
    if i == 0 then 0
    else
      var before := Made(parts, sought, maximum, i - 1);
      before + CountIn(parts[i - 1], sought, maximum - before)
  }

  function AllOccurrences(parts: seq<Part>, sought: string, i: nat): nat
    requires sought != "" && i <= |parts|
  {
    if i == 0 then 0 else AllOccurrences(parts, sought, i - 1) + OccurrencesIn(parts[i - 1], sought)
  }

  /** Taken in document order, the replacements are the maximum or all occurrences, whichever is smaller. */
  lemma {:induction false} MadeIsMaximumOrAll(parts: seq<Part>, sought: string, maximum: nat, i: nat)
    requires sought != "" && i <= |parts|
    ensures Made(parts, sought, maximum, i) == Smaller(maximum, AllOccurrences(parts, sought, i))
  {
    hide CountIn, OccurrencesIn;
    if i > 0 {
      MadeIsMaximumOrAll(parts, sought, maximum, i - 1);
      CountInIsBudgetOrAll(parts[i - 1], sought, maximum - Made(parts, sought, maximum, i - 1));
    }
  }

  /** A part is copied as it is unless something in it was replaced. */
  ghost predicate PartDone(p: Part, q: Part, sought: string, subst: string, budget: nat)
    requires sought != ""
  {
    var nodes := NodesOfPart(p);
    if CountIn(p, sought, budget) == 0 then q == p
    else
      && Readable(p) && q.editable && q.events.Some?
      && Rewritten(p.events.value, q.events.value, nodes, NewTexts(nodes, sought, subst, budget))
  }

  /** One replacement, or as many as a 64-bit counter holds. */
  function Maximum(all: bool): nat {
    if all then U64_MAX else 1
  }

  /** Without `all` the first occurrence in document order is replaced, and nothing else; with it all are. */
  lemma {:induction false} OneOrAll(parts: seq<Part>, sought: string, all: bool)
    requires sought != ""
    ensures var occurrences := AllOccurrences(parts, sought, |parts|);
            Made(parts, sought, Maximum(all), |parts|) ==
              if occurrences == 0 then 0 else if !all then 1
              else if occurrences <= 0xFFFF_FFFF_FFFF_FFFF then occurrences else 0xFFFF_FFFF_FFFF_FFFF
  {
    hide Made, AllOccurrences;
    MadeIsMaximumOrAll(parts, sought, Maximum(all), |parts|);
  }

  /** A part is looked into only while there is something to replace. */
  predicate Visited(parts: seq<Part>, sought: string, all: bool, i: nat)
    requires sought != "" && i < |parts|
  {
    Readable(parts[i]) && (all || Made(parts, sought, 1, i) == 0)
  }

  /** A part that is looked into and has unbalanced text nodes. */
  predicate Unreadable(parts: seq<Part>, sought: string, all: bool, i: nat)
    requires sought != "" && i < |parts|
  {
    Visited(parts, sought, all, i) && Collect(parts[i].events.value).Err?
  }

  ghost predicate PartDoneAt(parts: seq<Part>, q: Part, sought: string, subst: string, maximum: nat, i: nat)
    requires sought != "" && i < |parts|
  {
    PartDone(parts[i], q, sought, subst, maximum - Made(parts, sought, maximum, i))
  }

  /** What a part that is looked into becomes. */
  lemma {:induction false} PartRewritten(p: Part, sought: string, subst: string, budget: nat, events: seq<Event>,
                                         count: nat)
    requires sought != "" && Readable(p) && Collect(p.events.value).Ok?
    requires var nodes := Collect(p.events.value).value.nodes;
             && Rewritten(p.events.value, events, nodes, NewTexts(nodes, sought, subst, budget))
             && count == Count(nodes, sought, budget)
    ensures count == CountIn(p, sought, budget)
            && PartDone(p, if count > 0 then Part(true, Some(events)) else p, sought, subst, budget)
  {
    hide Collect, Count, NewTexts, Rewritten;
  }

  lemma {:induction false} NoNodesNoCount(part: Part, sought: string, subst: string, budget: nat)
    requires sought != "" && (!Readable(part) || budget == 0)
    ensures CountIn(part, sought, budget) == 0 && PartDone(part, part, sought, subst, budget)
  {
    hide Collect;
  }

  /** One readable part. */
  method ReplaceInPart(part: Part, sought: string, subst: string, budget: nat)
    returns (r: Result<(Part, nat), PartError>)
    requires sought != "" && Readable(part)
    ensures r.Err? <==> Collect(part.events.value).Err?
    ensures r.Err? ==> r.error == Malformed
    ensures r.Ok? ==> r.value.1 == CountIn(part, sought, budget) && PartDone(part, r.value.0, sought, subst, budget)
  {
    hide Collect, Count, NewTexts, Rewritten, CountIn, PartDone;
    var replaced := ReplaceTextRuns(part.events.value, sought, subst, budget);
    if replaced.Err? {
      return Err(Malformed);
    }
    var (events, count) := replaced.value;
    PartRewritten(part, sought, subst, budget, events, count);
    r := Ok((if count > 0 then Part(true, Some(events)) else part, count));
  }

  /** What the first `i` entries expand to, by their declared sizes. */
  function Expanded(sizes: nat -> nat, i: nat): nat {
    if i == 0 then 0 else Expanded(sizes, i - 1) + sizes(i - 1)
  }

  predicate OverLimit(sizes: nat -> nat, i: nat) {
    sizes(i) > MAX_OFFICE_ENTRY_BYTES || Expanded(sizes, i + 1) > MAX_OFFICE_TOTAL_BYTES
  }

  /** The entry at which the whole replacement fails: too large, or else looked into and unreadable. */
  ghost predicate FailsAt(parts: seq<Part>, sizes: nat -> nat, sought: string, all: bool, i: nat)
    requires sought != "" && i < |parts|
  {
    && (OverLimit(sizes, i) || Unreadable(parts, sought, all, i))
    && forall j :: 0 <= j < i ==> !OverLimit(sizes, j) && !Unreadable(parts, sought, all, j)
  }

  method ReplaceInParts(parts: seq<Part>, sizes: nat -> nat, sought: string, subst: string, all: bool)
    returns (r: Result<(seq<Part>, nat), PartError>)
    requires sought != ""
    ensures r == Err(TooLarge) <==>
              exists i :: 0 <= i < |parts| && FailsAt(parts, sizes, sought, all, i) && OverLimit(sizes, i)
    ensures r == Err(Malformed) <==>
              exists i :: 0 <= i < |parts| && FailsAt(parts, sizes, sought, all, i) && !OverLimit(sizes, i)
    ensures r == Err(NotFound) <==>
              && (forall i :: 0 <= i < |parts| ==> !FailsAt(parts, sizes, sought, all, i))
              && Made(parts, sought, Maximum(all), |parts|) == 0
    ensures r.Ok? ==> r.value.1 == Made(parts, sought, Maximum(all), |parts|) > 0 && |r.value.0| == |parts|
    ensures r.Ok? ==> forall i :: 0 <= i < |parts| ==> PartDoneAt(parts, r.value.0[i], sought, subst, Maximum(all), i)
  {
    hide Made, Unreadable, PartDoneAt, OverLimit;
    var maximum := Maximum(all);
    var written: seq<Part> := [];
    var replacements, expanded: nat := 0, 0;
    NoneMade(parts, sought, maximum);
    for i := 0 to |parts|
      invariant |written| == i && replacements == Made(parts, sought, maximum, i) && expanded == Expanded(sizes, i)
      invariant forall j :: 0 <= j < i ==> PartDoneAt(parts, written[j], sought, subst, maximum, j)
      invariant forall j :: 0 <= j < i ==> !OverLimit(sizes, j) && !Unreadable(parts, sought, all, j)
    {
      expanded := expanded + sizes(i);
      LimitAt(sizes, i);
      if sizes(i) > MAX_OFFICE_ENTRY_BYTES || expanded > MAX_OFFICE_TOTAL_BYTES {
        assert FailsAt(parts, sizes, sought, all, i);
        return Err(TooLarge);
      }
      var next := ReplaceInNext(parts, i, sought, subst, all, replacements);
      if next.Err? {
        assert FailsAt(parts, sizes, sought, all, i);
        return Err(Malformed);
      }
      written, replacements := written + [next.value.0], replacements + next.value.1;
    }
    if replacements == 0 {
      return Err(NotFound);
    }
    r := Ok((written, replacements));
  }

  lemma {:induction false} LimitAt(sizes: nat -> nat, i: nat)
    ensures OverLimit(sizes, i) <==>
              sizes(i) > MAX_OFFICE_ENTRY_BYTES || Expanded(sizes, i) + sizes(i) > MAX_OFFICE_TOTAL_BYTES
  {
  }

  lemma {:induction false} NoneMade(parts: seq<Part>, sought: string, maximum: nat)
    requires sought != ""
    ensures Made(parts, sought, maximum, 0) == 0
  {
  }

  /** The next part: looked into, or copied. */
  method ReplaceInNext(parts: seq<Part>, i: nat, sought: string, subst: string, all: bool, replacements: nat)
    returns (r: Result<(Part, nat), PartError>)
    requires sought != "" && i < |parts| && replacements == Made(parts, sought, Maximum(all), i)
    ensures r.Err? <==> Unreadable(parts, sought, all, i)
    ensures r.Ok? ==> PartDoneAt(parts, r.value.0, sought, subst, Maximum(all), i)
                      && replacements + r.value.1 == Made(parts, sought, Maximum(all), i + 1)
  {
    hide CountIn, PartDone, Collect;
    var part := parts[i];
    if part.editable && part.events.Some? && (all || replacements == 0) {
      r := ReplaceInPart(part, sought, subst, Maximum(all) - replacements);
    } else {
      NoNodesNoCount(part, sought, subst, Maximum(all) - replacements);
      r := Ok((part, 0));
    }
  }
}
