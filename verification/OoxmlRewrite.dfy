/** Replacing text in all groups of an XML part, and collecting the nodes again. */
module OoxmlRewrite {
  import opened Machine
  import opened Outcomes
  import opened OoxmlText
  import opened OoxmlGroup
  import opened OoxmlRuns

  // ---- one node ----

  /** The node's first event carries the text, its other events nothing. */
  predicate Carries(events: seq<Event>, indices: seq<nat>, text: string) {
    forall i :: 0 <= i < |indices| ==>
      indices[i] < |events| && events[indices[i]] == Chars(Text, Some(if i == 0 then text else ""))
  }

  predicate SameAt(events: seq<Event>, after: seq<Event>, indices: seq<nat>) {
    forall i :: 0 <= i < |indices| ==>
      indices[i] < |events| && indices[i] < |after| && after[indices[i]] == events[indices[i]]
  }

  method RewriteNode(events: seq<Event>, node: Node, text: string) returns (after: seq<Event>)
    requires node.indices != [] && Ascending(node.indices, 0, |events|)
    ensures |after| == |events| && Carries(after, node.indices, text)
    ensures forall k :: 0 <= k < |events| && k !in node.indices ==> after[k] == events[k]
  {
    after := events[node.indices[0] := Chars(Text, Some(text))];
    for i := 1 to |node.indices|
      invariant |after| == |events|
      invariant forall j :: 0 <= j < i ==> after[node.indices[j]] == Chars(Text, Some(if j == 0 then text else ""))
      invariant forall k :: 0 <= k < |events| && k !in node.indices ==> after[k] == events[k]
    {
      after := after[node.indices[i] := Chars(Text, Some(""))];
    }
  }

  lemma {:induction false} CarriesText(events: seq<Event>, indices: seq<nat>, text: string)
    requires Carries(events, indices, text) && indices != []
    ensures TextAt(events, indices) == text
  {
    var before := indices[..|indices| - 1];
    if before != [] {
      CarriesText(events, before, text);
    }
  }

  lemma {:induction false} SameText(events: seq<Event>, after: seq<Event>, indices: seq<nat>)
    requires SameAt(events, after, indices)
    ensures TextAt(after, indices) == TextAt(events, indices)
  {
    if indices != [] {
      assert after[indices[|indices| - 1]] == events[indices[|indices| - 1]];
      SameText(events, after, indices[..|indices| - 1]);
    }
  }

  // ---- all nodes ----

  predicate InNode(nodes: seq<Node>, k: nat) {
    exists i :: 0 <= i < |nodes| && k in nodes[i].indices
  }

  /** Every event outside the nodes is unchanged, and every node either carries its new text or is unchanged with it. */
  ghost predicate Rewritten(events: seq<Event>, after: seq<Event>, nodes: seq<Node>, texts: seq<string>) {
    && |after| == |events| && |texts| == |nodes|
    && (forall k :: 0 <= k < |events| && !InNode(nodes, k) ==> after[k] == events[k])
    && (forall i :: 0 <= i < |nodes| ==>
          || Carries(after, nodes[i].indices, texts[i])
          || (SameAt(events, after, nodes[i].indices) && texts[i] == nodes[i].text))
  }

  ghost predicate NodesFit(events: seq<Event>, nodes: seq<Node>) {
    && (forall i :: 0 <= i < |nodes| ==> NodeFits(events, nodes[i]) && nodes[i].indices != [])
    && (forall i, j :: 0 <= i < j < |nodes| ==> Before(nodes[i], nodes[j]))
  }

  lemma {:induction false} OtherNodeUntouched(events: seq<Event>, nodes: seq<Node>, i: nat, j: nat, k: nat)
    requires NodesFit(events, nodes) && i < |nodes| && j < |nodes| && i != j && k in nodes[i].indices
    ensures k !in nodes[j].indices
  {
    assert Before(nodes[if i < j then i else j], nodes[if i < j then j else i]);
  }

  lemma {:induction false} RewritingOne(events: seq<Event>, before: seq<Event>, after: seq<Event>, nodes: seq<Node>,
                                        texts: seq<string>, j: nat, text: string)
    requires NodesFit(events, nodes) && j < |nodes| && Rewritten(events, before, nodes, texts)
    requires |after| == |before| && Carries(after, nodes[j].indices, text)
    requires forall k :: 0 <= k < |before| && k !in nodes[j].indices ==> after[k] == before[k]
    ensures Rewritten(events, after, nodes, texts[j := text])
  {
    forall i | 0 <= i < |nodes| && i != j
      ensures Carries(after, nodes[i].indices, texts[i])
              || (SameAt(events, after, nodes[i].indices) && texts[i] == nodes[i].text)
    {
      forall x | 0 <= x < |nodes[i].indices|
        ensures nodes[i].indices[x] < |events| && after[nodes[i].indices[x]] == before[nodes[i].indices[x]]
      {
        assert NodeFits(events, nodes[i]);
        OtherNodeUntouched(events, nodes, i, j, nodes[i].indices[x]);
      }
    }
  }

  // ---- collecting again ----

  predicate SameKind(e: Event, f: Event) {
    e == f || (e.Chars? && f.Chars? && f.decoded.Some?)
  }

  predicate SameNode(a: Node, b: Node) {
    a.indices == b.indices && a.group == b.group
  }

  ghost predicate SameShape(c: Collecting, d: Collecting) {
    && c.group == d.group && |c.nodes| == |d.nodes|
    && (c.current.Some? <==> d.current.Some?)
    && (c.current.Some? ==> SameNode(c.current.value, d.current.value))
    && forall i :: 0 <= i < |c.nodes| ==> SameNode(c.nodes[i], d.nodes[i])
  }

  lemma {:induction false} SameShapeGrows(c: Collecting, d: Collecting, e: Event, f: Event, index: nat)
    requires SameShape(c, d) && SameKind(e, f) && CollectOne(c, e, index).Ok?
    ensures CollectOne(d, f, index).Ok? && SameShape(CollectOne(c, e, index).value, CollectOne(d, f, index).value)
  {
  }

  lemma {:induction false} SameShapeCollected(events: seq<Event>, after: seq<Event>)
    requires |after| == |events| && Collect(events).Ok?
    requires forall k :: 0 <= k < |events| ==> SameKind(events[k], after[k])
    ensures Collect(after).Ok? && SameShape(Collect(events).value, Collect(after).value)
  {
    if events != [] {
      var n := |events| - 1;
      SameShapeCollected(events[..n], after[..n]);
      SameShapeGrows(Collect(events[..n]).value, Collect(after[..n]).value, events[n], after[n], n);
    }
  }

  lemma {:induction false} RewrittenKinds(events: seq<Event>, after: seq<Event>, nodes: seq<Node>, texts: seq<string>,
                                          k: nat)
    requires NodesFit(events, nodes) && Rewritten(events, after, nodes, texts) && k < |events|
    ensures SameKind(events[k], after[k])
  {
    if InNode(nodes, k) {
      var i :| 0 <= i < |nodes| && k in nodes[i].indices;
      var x :| 0 <= x < |nodes[i].indices| && nodes[i].indices[x] == k;
      assert CharsAt(events, nodes[i].indices);
    }
  }

  lemma {:induction false} RewrittenText(events: seq<Event>, after: seq<Event>, nodes: seq<Node>, texts: seq<string>,
                                         i: nat)
    requires NodesFit(events, nodes) && Rewritten(events, after, nodes, texts) && i < |nodes|
    ensures forall x :: 0 <= x < |nodes[i].indices| ==> nodes[i].indices[x] < |after|
    ensures TextAt(after, nodes[i].indices) == texts[i]
  {
    assert NodeFits(events, nodes[i]);
    if Carries(after, nodes[i].indices, texts[i]) {
      CarriesText(after, nodes[i].indices, texts[i]);
    } else {
      SameText(events, after, nodes[i].indices);
    }
  }

  /** Collecting again from a rewritten event list finds the same nodes, in the same groups, with the new texts. */
  lemma {:induction false} RecollectsNewTexts(events: seq<Event>, after: seq<Event>, texts: seq<string>)
    requires Collect(events).Ok? && Rewritten(events, after, Collect(events).value.nodes, texts)
    ensures Collect(after).Ok?
    ensures var nodes := Collect(events).value.nodes; var again := Collect(after).value.nodes;
            |again| == |nodes| && forall i :: 0 <= i < |nodes| ==> again[i] == nodes[i].(text := texts[i])
  {
    CollectIsCollected(events);
    var nodes := Collect(events).value.nodes;
    assert NodesFit(events, nodes);
    forall k | 0 <= k < |events| ensures SameKind(events[k], after[k]) {
      RewrittenKinds(events, after, nodes, texts, k);
    }
    hide Collect;
    SameShapeCollected(events, after);
    CollectIsCollected(after);
    var again := Collect(after).value.nodes;
    forall i | 0 <= i < |nodes| ensures again[i] == nodes[i].(text := texts[i]) {
      assert SameNode(nodes[i], again[i]) && NodeFits(after, again[i]);
      RewrittenText(events, after, nodes, texts, i);
    }
  }

  // ---- the groups and their budget ----

  /** The end of the run of nodes in the first node's group. */
  function GroupEnd(nodes: seq<Node>): (end: nat)
    requires nodes != []
    ensures 1 <= end <= |nodes|
    ensures forall i :: 0 <= i < end ==> nodes[i].group == nodes[0].group
    ensures end < |nodes| ==> nodes[end].group != nodes[0].group
  {
    if |nodes| == 1 || nodes[1].group != nodes[0].group then 1 else 1 + GroupEnd(nodes[1..])
  }

  function Texts(nodes: seq<Node>): (texts: seq<string>)
    ensures |texts| == |nodes|
  {
    seq(|nodes|, i requires 0 <= i < |nodes| => nodes[i].text)
  }

  function Outputs(texts: seq<string>, sought: string, subst: string, budget: nat): (outputs: seq<string>)
    requires sought != ""
    ensures |outputs| == |texts|
  {
    var starts := Starts(Concat(texts), sought, 0, budget);
    seq(|texts|, i requires 0 <= i < |texts| => NodeOutput(texts, subst, starts, |sought|, i))
  }

  function Taken(texts: seq<string>, sought: string, budget: nat): (n: nat)
    requires sought != ""
    ensures n <= budget
  {
    |Starts(Concat(texts), sought, 0, budget)|
  }

  /** The new texts of all nodes: group after group, each with what is left of the budget. */
  function NewTexts(nodes: seq<Node>, sought: string, subst: string, budget: nat): (texts: seq<string>)
    requires sought != ""
    ensures |texts| == |nodes|
    decreases |nodes|
  {
    if nodes == [] then []
    else
      var end := GroupEnd(nodes);
      var group := Texts(nodes[..end]);
      Outputs(group, sought, subst, budget)
        + NewTexts(nodes[end..], sought, subst, budget - Taken(group, sought, budget))
  }

  function Count(nodes: seq<Node>, sought: string, budget: nat): (n: nat)
    requires sought != ""
    ensures n <= budget
    decreases |nodes|
  {
    if nodes == [] then 0
    else
      var end := GroupEnd(nodes);
      var taken := Taken(Texts(nodes[..end]), sought, budget);
      taken + Count(nodes[end..], sought, budget - taken)
  }

  /** All occurrences, group by group. */
  function TotalOccurrences(nodes: seq<Node>, sought: string): nat
    requires sought != ""
    decreases |nodes|
  {
    if nodes == [] then 0
    else
      var end := GroupEnd(nodes);
      Occurrences(Concat(Texts(nodes[..end])), sought) + TotalOccurrences(nodes[end..], sought)
  }

  /** The number of replacements is the budget or the number of occurrences, whichever is smaller. */
  lemma {:induction false} CountIsBudgetOrAll(nodes: seq<Node>, sought: string, budget: nat)
    requires sought != ""
    ensures Count(nodes, sought, budget) == Smaller(budget, TotalOccurrences(nodes, sought))
    decreases |nodes|
  {
    hide Texts, GroupEnd, Starts;
    if nodes != [] {
      var end := GroupEnd(nodes);
      var joined := Concat(Texts(nodes[..end]));
      StartsBounded(joined, sought, 0, budget, |joined|);
      CountIsBudgetOrAll(nodes[end..], sought, budget - Taken(Texts(nodes[..end]), sought, budget));
    }
  }

  lemma {:induction false} TakenIsBudgetOrAll(group: seq<string>, sought: string, budget: nat)
    requires sought != ""
    ensures Taken(group, sought, budget) == Smaller(budget, Occurrences(Concat(group), sought))
  {
    hide Starts, Concat;
    StartsBounded(Concat(group), sought, 0, budget, |Concat(group)|);
  }

  lemma {:induction false} GroupOutputs(group: seq<string>, sought: string, subst: string, budget: nat)
    requires sought != ""
    ensures Concat(Outputs(group, sought, subst, budget)) == Replaced(Concat(group), sought, subst, 0, budget)
  {
    hide Starts, Concat, Replaced, NodeOutput;
    OutputsAreReplaced(group, sought, subst, budget, Outputs(group, sought, subst, budget));
  }

  /** The joined new texts of the first group are its joined text with as many occurrences replaced as the budget
      allows; the other groups follow with the rest of the budget. */
  lemma {:induction false} FirstGroupIsReplaced(nodes: seq<Node>, sought: string, subst: string, budget: nat)
    requires sought != "" && nodes != []
    ensures var end := GroupEnd(nodes); var texts := NewTexts(nodes, sought, subst, budget);
            var joined := Concat(Texts(nodes[..end]));
            && Concat(texts[..end]) == Replaced(joined, sought, subst, 0, budget)
            && texts[end..] ==
                 NewTexts(nodes[end..], sought, subst, budget - Smaller(budget, Occurrences(joined, sought)))
  {
    var end := GroupEnd(nodes);
    var group := Texts(nodes[..end]);
    var outputs := Outputs(group, sought, subst, budget);
    TakenIsBudgetOrAll(group, sought, budget);
    GroupOutputs(group, sought, subst, budget);
    NextGroup(nodes, sought, subst, budget, end);
    hide *;
    assert NewTexts(nodes, sought, subst, budget)[..end] == outputs;
  }

  /** A group without a match, or without a budget, keeps its texts. */
  lemma {:induction false} NothingTaken(texts: seq<string>, sought: string, subst: string, budget: nat)
    requires sought != "" && Taken(texts, sought, budget) == 0
    ensures Outputs(texts, sought, subst, budget) == texts
  {
    var starts := Starts(Concat(texts), sought, 0, budget);
    assert starts == [];
    forall i | 0 <= i < |texts| ensures NodeOutput(texts, subst, starts, |sought|, i) == texts[i] {
      UntouchedNodeKeepsText(texts, subst, starts, |sought|, i);
    }
  }

  lemma {:induction false} NoBudget(nodes: seq<Node>, sought: string, subst: string)
    requires sought != ""
    ensures NewTexts(nodes, sought, subst, 0) == Texts(nodes) && Count(nodes, sought, 0) == 0
    decreases |nodes|
  {
    hide Outputs, Taken, GroupEnd, Texts, NewTexts, Count;
    if nodes == [] {
      NoNodes(nodes, sought, subst, 0);
    } else {
      var end := GroupEnd(nodes);
      NothingTaken(Texts(nodes[..end]), sought, subst, 0);
      NoBudget(nodes[end..], sought, subst);
      NextGroup(nodes, sought, subst, 0, end);
      TextsSplit(nodes, end);
    }
  }

  lemma {:induction false} TextsSplit(nodes: seq<Node>, n: nat)
    requires n <= |nodes|
    ensures Texts(nodes[..n]) + Texts(nodes[n..]) == Texts(nodes)
  {
  }

  // ---- the whole part ----

  method CollectNodes(events: seq<Event>) returns (r: Result<seq<Node>, ()>)
    ensures r.Err? <==> Collect(events).Err?
    ensures r.Ok? ==> r.value == Collect(events).value.nodes
  {
    var group, current, nodes := 0, None, [];
    for i := 0 to |events|
      invariant Collect(events[..i]) == Ok(Collecting(group, current, nodes))
    {
      assert events[..i] + [events[i]] == events[..i + 1];
      CollectAppend(events[..i], events[i]);
      var e := events[i];
      match e {
        case Start(local) =>
          if local == "p" || local == "si" || local == "c" {
            group := group + 1;
          }
          if local == "t" {
            current := Some(Node([], group, ""));
          }
        case End(local) =>
          if local == "t" && current.Some? {
            if current.value.indices != [] {
              nodes := nodes + [current.value];
            }
            current := None;
          }
        case Chars(_, decoded) =>
          if current.Some? {
            if decoded.None? {
              CollectFailsEarly(events, i + 1);
              return Err(());
            }
            current := Some(Node(current.value.indices + [i], current.value.group, current.value.text + decoded.value));
          }
        case Other(_) =>
      }
    }
    assert events[..|events|] == events;
    r := Ok(nodes);
  }

  /** Writes the new texts of the nodes from `first` on. */
  method WriteTexts(original: seq<Event>, events: seq<Event>, nodes: seq<Node>, first: nat, updated: seq<string>,
                    ghost texts: seq<string>) returns (after: seq<Event>)
    requires NodesFit(original, nodes) && Rewritten(original, events, nodes, texts)
    requires first + |updated| <= |nodes| && |texts| == |nodes|
    ensures Rewritten(original, after, nodes, Splice(texts, first, updated))
  {
    hide Rewritten, NodesFit, InNode, Carries, SameAt, Ascending;
    after := events;
    Spliced(texts, first, updated, 0);
    for j := 0 to |updated|
      invariant Rewritten(original, after, nodes, Splice(texts, first, updated[..j]))
    {
      SizeKept(original, after, nodes, Splice(texts, first, updated[..j]), first + j);
      var next := RewriteNode(after, nodes[first + j], updated[j]);
      RewritingOne(original, after, next, nodes, Splice(texts, first, updated[..j]), first + j, updated[j]);
      Spliced(texts, first, updated, j);
      after := next;
    }
    assert updated[..|updated|] == updated;
  }

  /** `texts` with `part` written over it from `first` on. */
  function Splice(texts: seq<string>, first: nat, part: seq<string>): (r: seq<string>)
    requires first + |part| <= |texts|
    ensures |r| == |texts|
  {
    texts[..first] + part + texts[first + |part|..]
  }

  lemma {:induction false} Spliced(texts: seq<string>, first: nat, updated: seq<string>, j: nat)
    requires first + |updated| <= |texts| && j <= |updated|
    ensures j == 0 ==> Splice(texts, first, updated[..j]) == texts
    ensures j < |updated| ==>
              Splice(texts, first, updated[..j])[first + j := updated[j]] == Splice(texts, first, updated[..j + 1])
  {
  }

  lemma {:induction false} SizeKept(events: seq<Event>, after: seq<Event>, nodes: seq<Node>, texts: seq<string>, j: nat)
    requires NodesFit(events, nodes) && Rewritten(events, after, nodes, texts) && j < |nodes|
    ensures |after| == |events| && |texts| == |nodes|
    ensures nodes[j].indices != [] && Ascending(nodes[j].indices, 0, |after|)
  {
    assert NodeFits(events, nodes[j]);
  }

  /** The end of the group that starts with the node at index `first`. */
  method GroupFrom(nodes: seq<Node>, first: nat) returns (end: nat)
    requires first < |nodes|
    ensures first < end <= |nodes| && end - first == GroupEnd(nodes[first..])
    ensures nodes[first..end] == nodes[first..][..end - first]
  {
    hide GroupEnd;
    end := first + 1;
    while end < |nodes| && nodes[end].group == nodes[first].group
      invariant first < end <= |nodes|
      invariant forall i :: first <= i < end ==> nodes[i].group == nodes[first].group
    {
      end := end + 1;
    }
    EndOfGroup(nodes, first, end);
  }

  /** Finds the group that starts at `first`, replaces in it and writes it back if anything was replaced. */
  method ReplaceNextGroup(original: seq<Event>, events: seq<Event>, nodes: seq<Node>, first: nat, sought: string,
                          subst: string, budget: nat, ghost done: seq<string>)
    returns (after: seq<Event>, end: nat, count: nat)
    requires sought != "" && NodesFit(original, nodes) && first < |nodes| && |done| == first
    requires Rewritten(original, events, nodes, done + Texts(nodes[first..]))
    ensures first < end <= |nodes| && end - first == GroupEnd(nodes[first..])
    ensures count == Taken(Texts(nodes[first..][..end - first]), sought, budget)
    ensures Rewritten(original, after, nodes,
                      done + Outputs(Texts(nodes[first..][..end - first]), sought, subst, budget)
                        + Texts(nodes[first..][end - first..]))
  {
    hide Rewritten, NodesFit, Outputs, Taken, Texts, GroupEnd, Starts, Splice;
    after := events;
    end := GroupFrom(nodes, first);
    ghost var rest := nodes[first..];
    var texts := Texts(nodes[first..end]);
    var updated;
    updated, count := ReplaceGroup(texts, sought, subst, budget);
    GroupResult(texts, sought, subst, budget, updated, count);
    Advance(done, rest, updated, end - first);
    if count > 0 {
      after := WriteTexts(original, after, nodes, first, updated, done + Texts(rest));
    } else {
      NothingTaken(texts, sought, subst, budget);
    }
  }

  /** Rewrites an XML part. On success the events differ from the original only at the nodes, the nodes carry exactly
      the new texts, and the count says how many occurrences were replaced. */
  method ReplaceTextRuns(events: seq<Event>, sought: string, subst: string, maximum: nat)
    returns (r: Result<(seq<Event>, nat), ()>)
    requires sought != ""
    ensures r.Err? <==> Collect(events).Err?
    ensures r.Ok? ==>
              var nodes := Collect(events).value.nodes;
              && Rewritten(events, r.value.0, nodes, NewTexts(nodes, sought, subst, maximum))
              && r.value.1 == Count(nodes, sought, maximum)
  {
    hide Collect, Rewritten, NodesFit, Count, NewTexts, Outputs, Taken, Texts, GroupEnd, Starts, InProgress;
    var collected := CollectNodes(events);
    if collected.Err? {
      return Err(());
    }
    var nodes := collected.value;
    NodesOf(events, nodes);
    var after := events;
    var replacements: nat, first: nat := 0, 0;
    ghost var done: seq<string> := [];
    Starting(events, nodes, sought, subst, maximum);
    while first < |nodes| && replacements < maximum
      invariant first <= |nodes| && replacements <= maximum
      invariant InProgress(events, after, nodes, first, done, sought, subst, maximum, replacements)
      decreases |nodes| - first
    {
      Ready(events, after, nodes, first, done, sought, subst, maximum, replacements);
      var next, end, count := ReplaceNextGroup(events, after, nodes, first, sought, subst, maximum - replacements,
                                               done);
      GroupStep(events, after, next, nodes, first, end, done, sought, subst, maximum, replacements);
      done := done + Outputs(Texts(nodes[first..][..end - first]), sought, subst, maximum - replacements);
      after, replacements, first := next, replacements + count, end;
    }
    Finished(events, after, nodes, first, done, sought, subst, maximum, replacements);
    r := Ok((after, replacements));
  }

  /** The groups before `first` have their new texts, the others their old ones and the rest of the budget. */
  ghost predicate InProgress(events: seq<Event>, after: seq<Event>, nodes: seq<Node>, first: nat, done: seq<string>,
                             sought: string, subst: string, maximum: nat, replacements: nat)
    requires sought != ""
  {
    && first <= |nodes| && replacements <= maximum && |done| == first
    && Rewritten(events, after, nodes, done + Texts(nodes[first..]))
    && done + NewTexts(nodes[first..], sought, subst, maximum - replacements) == NewTexts(nodes, sought, subst, maximum)
    && replacements + Count(nodes[first..], sought, maximum - replacements) == Count(nodes, sought, maximum)
  }

  lemma {:induction false} Starting(events: seq<Event>, nodes: seq<Node>, sought: string, subst: string, maximum: nat)
    requires sought != "" && NodesFit(events, nodes)
    ensures InProgress(events, events, nodes, 0, [], sought, subst, maximum, 0)
  {
    hide Rewritten, NodesFit, Count, NewTexts, Texts;
    Unwritten(events, nodes);
    assert nodes[0..] == nodes;
    assert [] + Texts(nodes) == Texts(nodes);
    assert [] + NewTexts(nodes, sought, subst, maximum) == NewTexts(nodes, sought, subst, maximum);
  }

  lemma {:induction false} Ready(events: seq<Event>, after: seq<Event>, nodes: seq<Node>, first: nat, done: seq<string>,
                                 sought: string, subst: string, maximum: nat, replacements: nat)
    requires sought != "" && InProgress(events, after, nodes, first, done, sought, subst, maximum, replacements)
    ensures first <= |nodes| && |done| == first && Rewritten(events, after, nodes, done + Texts(nodes[first..]))
  {
    hide Rewritten, Count, NewTexts, Texts;
  }

  lemma {:induction false} GroupStep(events: seq<Event>, after: seq<Event>, next: seq<Event>, nodes: seq<Node>,
                                     first: nat, end: nat,
                                     done: seq<string>, sought: string, subst: string, maximum: nat, replacements: nat)
    requires sought != "" && replacements <= maximum
    requires InProgress(events, after, nodes, first, done, sought, subst, maximum, replacements)
    requires first < end <= |nodes| && end - first == GroupEnd(nodes[first..])
    requires Rewritten(events, next, nodes,
                       done + Outputs(Texts(nodes[first..][..end - first]), sought, subst, maximum - replacements)
                       + Texts(nodes[first..][end - first..]))
    ensures var group := Texts(nodes[first..][..end - first]);
            InProgress(events, next, nodes, end, done + Outputs(group, sought, subst, maximum - replacements), sought,
                       subst, maximum, replacements + Taken(group, sought, maximum - replacements))
  {
    hide Rewritten, Count, NewTexts, Texts, Outputs, Taken, GroupEnd;
    GroupDone(nodes, first, end, sought, subst, maximum - replacements, done, NewTexts(nodes, sought, subst, maximum));
  }

  lemma {:induction false} Finished(events: seq<Event>, after: seq<Event>, nodes: seq<Node>, first: nat,
                                    done: seq<string>, sought: string, subst: string, maximum: nat, replacements: nat)
    requires sought != "" && InProgress(events, after, nodes, first, done, sought, subst, maximum, replacements)
    requires first == |nodes| || replacements == maximum
    ensures Rewritten(events, after, nodes, NewTexts(nodes, sought, subst, maximum))
            && replacements == Count(nodes, sought, maximum)
  {
    hide Rewritten, Count, NewTexts, Texts;
    if first < |nodes| {
      NoBudget(nodes[first..], sought, subst);
    } else {
      NoNodes(nodes[first..], sought, subst, maximum - replacements);
    }
  }

  lemma {:induction false} NodesOf(events: seq<Event>, nodes: seq<Node>)
    requires Collect(events).Ok? && nodes == Collect(events).value.nodes
    ensures NodesFit(events, nodes)
  {
    CollectIsCollected(events);
  }

  lemma {:induction false} Unwritten(events: seq<Event>, nodes: seq<Node>)
    requires NodesFit(events, nodes)
    ensures Rewritten(events, events, nodes, Texts(nodes))
  {
    forall i | 0 <= i < |nodes| ensures SameAt(events, events, nodes[i].indices) {
      assert NodeFits(events, nodes[i]);
    }
  }

  lemma {:induction false} EndOfGroup(nodes: seq<Node>, first: nat, end: nat)
    requires first < end <= |nodes|
    requires forall i :: first <= i < end ==> nodes[i].group == nodes[first].group
    requires end < |nodes| ==> nodes[end].group != nodes[first].group
    ensures GroupEnd(nodes[first..]) == end - first
  {
    var rest := nodes[first..];
    var e := GroupEnd(rest);
    hide GroupEnd;
    assert forall i :: 0 <= i < end - first ==> rest[i].group == rest[0].group;
    assert end < |nodes| ==> rest[end - first].group != rest[0].group;
  }

  lemma {:induction false} GroupResult(texts: seq<string>, sought: string, subst: string, budget: nat,
                                       updated: seq<string>, count: nat)
    requires sought != "" && |updated| == |texts|
    requires var starts := Starts(Concat(texts), sought, 0, budget);
             && count == |starts|
             && forall i :: 0 <= i < |texts| ==> updated[i] == NodeOutput(texts, subst, starts, |sought|, i)
    ensures updated == Outputs(texts, sought, subst, budget) && count == Taken(texts, sought, budget)
  {
  }

  lemma {:induction false} NextGroup(nodes: seq<Node>, sought: string, subst: string, budget: nat, end: nat)
    requires sought != "" && nodes != [] && end == GroupEnd(nodes)
    ensures var group := Texts(nodes[..end]); var left := budget - Taken(group, sought, budget);
            && NewTexts(nodes, sought, subst, budget) ==
                 Outputs(group, sought, subst, budget) + NewTexts(nodes[end..], sought, subst, left)
            && Count(nodes, sought, budget) == Taken(group, sought, budget) + Count(nodes[end..], sought, left)
  {
    hide GroupEnd, Texts, Outputs, Taken, Starts;
  }

  lemma {:induction false} GroupDone(nodes: seq<Node>, first: nat, end: nat, sought: string, subst: string, budget: nat,
                                     done: seq<string>, goal: seq<string>)
    requires sought != "" && first < end <= |nodes| && end - first == GroupEnd(nodes[first..])
    requires done + NewTexts(nodes[first..], sought, subst, budget) == goal
    ensures var group := Texts(nodes[first..][..end - first]); var left := budget - Taken(group, sought, budget);
            && nodes[first..][end - first..] == nodes[end..]
            && (done + Outputs(group, sought, subst, budget)) + NewTexts(nodes[end..], sought, subst, left) == goal
            && Count(nodes[first..], sought, budget) == Taken(group, sought, budget) + Count(nodes[end..], sought, left)
  {
    hide NewTexts, Count, Outputs, Taken, Texts, GroupEnd;
    NextGroup(nodes[first..], sought, subst, budget, end - first);
    assert nodes[first..][end - first..] == nodes[end..];
  }

  lemma {:induction false} Advance(done: seq<string>, rest: seq<Node>, updated: seq<string>, n: nat)
    requires n <= |rest| && |updated| == n
    ensures var texts := done + Texts(rest);
            && Splice(texts, |done|, updated) == done + updated + Texts(rest[n..])
            && (updated == Texts(rest[..n]) ==> texts == done + updated + Texts(rest[n..]))
  {
    assert Texts(rest)[n..] == Texts(rest[n..]);
    assert Texts(rest) == Texts(rest[..n]) + Texts(rest[n..]);
  }

  lemma {:induction false} NoNodes(nodes: seq<Node>, sought: string, subst: string, budget: nat)
    requires sought != "" && nodes == []
    ensures NewTexts(nodes, sought, subst, budget) == Texts(nodes) && Count(nodes, sought, budget) == 0
  {
  }
}
