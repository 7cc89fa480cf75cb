/** Rewriting the text nodes of an XML part, event by event. */
module OoxmlRuns {
  import opened Outcomes
  import opened OoxmlText
  import opened OoxmlGroup

  datatype Form = Text | CData | Reference

  /** A reader event: a tag with its local name, characters with their visible text if it can be decoded, or anything
      else. */
  datatype Event =
    | Start(local: string)
    | End(local: string)
    | Chars(form: Form, decoded: Option<string>)
    | Other(tag: int)

  datatype Node = Node(indices: seq<nat>, group: nat, text: string)

  datatype Collecting = Collecting(group: nat, current: Option<Node>, nodes: seq<Node>)

  const NOTHING := Collecting(0, None, [])

  predicate IsBoundary(e: Event) {
    e.Start? && (e.local == "p" || e.local == "si" || e.local == "c")
  }

  predicate OpensNode(e: Event) {
    e.Start? && e.local == "t"
  }

  function CollectOne(c: Collecting, e: Event, index: nat): Result<Collecting, ()> {
    match e
    case Start(local) =>
      if IsBoundary(e) then Ok(c.(group := c.group + 1))
      else if OpensNode(e) then Ok(c.(current := Some(Node([], c.group, ""))))
      else Ok(c)
    case End(local) =>
      if local != "t" || c.current.None? then Ok(c)
      else if c.current.value.indices == [] then Ok(c.(current := None))
      else Ok(c.(current := None, nodes := c.nodes + [c.current.value]))
    case Chars(_, decoded) =>
      if c.current.None? then Ok(c)
      else if decoded.None? then Err(())
      else
        var node := c.current.value;
        Ok(c.(current := Some(node.(indices := node.indices + [index], text := node.text + decoded.value))))
    case Other(_) => Ok(c)
  }

  /** The text nodes of an event list. */
  function Collect(events: seq<Event>): Result<Collecting, ()> {
    if events == [] then Ok(NOTHING)
    else
      match Collect(events[..|events| - 1])
      case Err(e) => Err(e)
      case Ok(c) => CollectOne(c, events[|events| - 1], |events| - 1)
  }

  lemma {:induction false} CollectAppend(events: seq<Event>, e: Event)
    ensures Collect(events + [e]) == match Collect(events)
                                     case Err(x) => Err(x)
                                     case Ok(c) => CollectOne(c, e, |events|)
  {
    assert (events + [e])[..|events|] == events;
  }

  lemma {:induction false} CollectFailsEarly(events: seq<Event>, k: nat)
    requires k <= |events| && Collect(events[..k]).Err?
    ensures Collect(events).Err?
    decreases |events| - k
  {
    if k < |events| {
      CollectAppend(events[..k], events[k]);
      assert events[..k] + [events[k]] == events[..k + 1];
      CollectFailsEarly(events, k + 1);
    } else {
      assert events[..k] == events;
    }
  }

  // ---- what collecting guarantees ----

  /** The visible text at some indices. */
  function TextAt(events: seq<Event>, indices: seq<nat>): string
    requires forall i :: 0 <= i < |indices| ==> indices[i] < |events|
  {
    if indices == [] then ""
    else
      var e := events[indices[|indices| - 1]];
      TextAt(events, indices[..|indices| - 1]) + if e.Chars? && e.decoded.Some? then e.decoded.value else ""
  }

  predicate Ascending(indices: seq<nat>, low: nat, high: nat) {
    && (forall i :: 0 <= i < |indices| ==> low <= indices[i] < high)
    && (forall i, j :: 0 <= i < j < |indices| ==> indices[i] < indices[j])
  }

  predicate CharsAt(events: seq<Event>, indices: seq<nat>) {
    forall i :: 0 <= i < |indices| ==> indices[i] < |events| && events[indices[i]].Chars?
  }

  predicate NodeFits(events: seq<Event>, node: Node) {
    CharsAt(events, node.indices) && Ascending(node.indices, 0, |events|) && node.text == TextAt(events, node.indices)
  }

  predicate Before(a: Node, b: Node) {
    forall i, j :: 0 <= i < |a.indices| && 0 <= j < |b.indices| ==> a.indices[i] < b.indices[j]
  }

  /** Nodes are non-empty runs of character events, in document order and disjoint, with the text found there. */
  ghost predicate Collected(events: seq<Event>, c: Collecting) {
    && (forall i :: 0 <= i < |c.nodes| ==> NodeFits(events, c.nodes[i]) && c.nodes[i].indices != [])
    && (forall i, j :: 0 <= i < j < |c.nodes| ==> Before(c.nodes[i], c.nodes[j]))
    && (c.current.Some? ==>
          && NodeFits(events, c.current.value)
          && forall i :: 0 <= i < |c.nodes| ==> Before(c.nodes[i], c.current.value))
  }

  lemma {:induction false} TextAtExtends(events: seq<Event>, more: seq<Event>, indices: seq<nat>)
    requires forall i :: 0 <= i < |indices| ==> indices[i] < |events|
    ensures TextAt(events + more, indices) == TextAt(events, indices)
  {
    if indices != [] {
      TextAtExtends(events, more, indices[..|indices| - 1]);
    }
  }

  lemma {:induction false} NodeFitsExtends(events: seq<Event>, e: Event, node: Node)
    requires NodeFits(events, node)
    ensures NodeFits(events + [e], node)
  {
    TextAtExtends(events, [e], node.indices);
  }

  lemma {:induction false} NodeFitsGrows(events: seq<Event>, e: Event, node: Node)
    requires NodeFits(events, node) && e.Chars? && e.decoded.Some?
    ensures NodeFits(events + [e], node.(indices := node.indices + [|events|], text := node.text + e.decoded.value))
  {
    TextAtGrows(events, e, node.indices);
    hide TextAt;
  }

  lemma {:induction false} TextAtGrows(events: seq<Event>, e: Event, indices: seq<nat>)
    requires CharsAt(events, indices) && e.Chars? && e.decoded.Some?
    ensures CharsAt(events + [e], indices + [|events|])
    ensures TextAt(events + [e], indices + [|events|]) == TextAt(events, indices) + e.decoded.value
  {
    var grown := indices + [|events|];
    TextAtExtends(events, [e], indices);
    assert grown[..|indices|] == indices;
    assert (events + [e])[|events|] == e;
  }

  lemma {:induction false} CollectedGrows(events: seq<Event>, c: Collecting, e: Event)
    requires Collected(events, c) && CollectOne(c, e, |events|).Ok?
    ensures Collected(events + [e], CollectOne(c, e, |events|).value)
  {
    hide TextAt;
    var d := CollectOne(c, e, |events|).value;
    forall i | 0 <= i < |c.nodes| ensures NodeFits(events + [e], c.nodes[i]) {
      NodeFitsExtends(events, e, c.nodes[i]);
    }
    if c.current.Some? {
      NodeFitsExtends(events, e, c.current.value);
      if e.Chars? {
        NodeFitsGrows(events, e, c.current.value);
      }
    }
    if OpensNode(e) {
      EmptyNodeFits(events + [e], c.group);
    }
  }

  lemma {:induction false} EmptyNodeFits(events: seq<Event>, group: nat)
    ensures NodeFits(events, Node([], group, ""))
  {
  }

  lemma {:induction false} CollectIsCollected(events: seq<Event>)
    requires Collect(events).Ok?
    ensures Collected(events, Collect(events).value)
  {
    if events != [] {
      var before := events[..|events| - 1];
      CollectIsCollected(before);
      CollectedGrows(before, Collect(before).value, events[|events| - 1]);
      assert before + [events[|events| - 1]] == events;
    }
  }

  // ---- groups are separated by p, si and c ----

  function Boundaries(events: seq<Event>): nat {
    if events == [] then 0
    else Boundaries(events[..|events| - 1]) + if IsBoundary(events[|events| - 1]) then 1 else 0
  }

  /** The last `t` tag of the event list. */
  function LastOpening(events: seq<Event>): (r: Option<nat>)
    ensures r.Some? ==> r.value < |events| && OpensNode(events[r.value])
    ensures r.Some? ==> forall i :: r.value < i < |events| ==> !OpensNode(events[i])
    ensures r.None? ==> forall i :: 0 <= i < |events| ==> !OpensNode(events[i])
  {
    if events == [] then None
    else if OpensNode(events[|events| - 1]) then Some(|events| - 1)
    else LastOpening(events[..|events| - 1])
  }

  /** A node belongs to the group that was current at the `t` tag it follows. */
  predicate GroupedAt(events: seq<Event>, group: nat, k: nat)
    requires k <= |events|
  {
    var o := LastOpening(events[..k]);
    o.Some? && group == Boundaries(events[..o.value])
  }

  ghost predicate Grouped(events: seq<Event>, c: Collecting) {
    && c.group == Boundaries(events)
    && (c.current.Some? ==> GroupedAt(events, c.current.value.group, |events|))
    && (c.current.Some? && c.current.value.indices != [] ==>
          c.current.value.indices[0] < |events| && GroupedAt(events, c.current.value.group, c.current.value.indices[0]))
    && (forall i :: 0 <= i < |c.nodes| ==>
          c.nodes[i].indices != [] && c.nodes[i].indices[0] < |events|
          && GroupedAt(events, c.nodes[i].group, c.nodes[i].indices[0]))
  }

  lemma {:induction false} GroupedAtExtends(events: seq<Event>, e: Event, group: nat, k: nat)
    requires k <= |events| && GroupedAt(events, group, k)
    ensures GroupedAt(events + [e], group, k)
    ensures k == |events| && !OpensNode(e) ==> GroupedAt(events + [e], group, k + 1)
  {
    assert (events + [e])[..k] == events[..k];
    var o := LastOpening(events[..k]).value;
    assert (events + [e])[..o] == events[..o];
    if k == |events| {
      assert (events + [e])[..k + 1] == events + [e] && events[..k] == events;
      assert (events + [e])[..|events|] == events;
    }
  }

  lemma {:induction false} OpeningGroups(events: seq<Event>, e: Event)
    requires OpensNode(e)
    ensures GroupedAt(events + [e], Boundaries(events), |events| + 1)
  {
    assert (events + [e])[..|events| + 1] == events + [e];
    assert (events + [e])[..|events|] == events;
  }

  lemma {:induction false} BoundariesAppend(events: seq<Event>, e: Event)
    ensures Boundaries(events + [e]) == Boundaries(events) + if IsBoundary(e) then 1 else 0
  {
    assert (events + [e])[..|events|] == events;
  }

  lemma {:induction false} GroupedGrows(events: seq<Event>, c: Collecting, e: Event)
    requires Grouped(events, c) && CollectOne(c, e, |events|).Ok?
    ensures Grouped(events + [e], CollectOne(c, e, |events|).value)
  {
    hide GroupedAt, Boundaries;
    BoundariesAppend(events, e);
    forall i | 0 <= i < |c.nodes| ensures GroupedAt(events + [e], c.nodes[i].group, c.nodes[i].indices[0]) {
      GroupedAtExtends(events, e, c.nodes[i].group, c.nodes[i].indices[0]);
    }
    if OpensNode(e) {
      OpeningGroups(events, e);
    } else if c.current.Some? {
      GroupedAtExtends(events, e, c.current.value.group, |events|);
      if c.current.value.indices != [] {
        GroupedAtExtends(events, e, c.current.value.group, c.current.value.indices[0]);
      }
    }
  }

  lemma {:induction false} CollectIsGrouped(events: seq<Event>)
    requires Collect(events).Ok?
    ensures Grouped(events, Collect(events).value)
  {
    if events != [] {
      var before := events[..|events| - 1];
      CollectIsGrouped(before);
      GroupedGrows(before, Collect(before).value, events[|events| - 1]);
      assert before + [events[|events| - 1]] == events;
    }
  }

  lemma {:induction false} BoundariesAscend(events: seq<Event>, i: nat, j: nat)
    requires i <= j <= |events|
    ensures Boundaries(events[..i]) <= Boundaries(events[..j])
    ensures (exists k :: i <= k < j && IsBoundary(events[k])) ==> Boundaries(events[..i]) < Boundaries(events[..j])
    decreases j
  {
    if i < j {
      BoundariesAscend(events, i, j - 1);
      assert events[..j][..j - 1] == events[..j - 1];
    }
  }
}
