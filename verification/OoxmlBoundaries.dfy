/** When text on the two sides of a paragraph, string-item or cell start is kept apart. */
module OoxmlBoundaries {
  import opened Outcomes
  import opened OoxmlRuns

  predicate Reaches(node: Node, x: nat) {
    x in node.indices
  }

  /** The event carries at least one character. */
  predicate HasText(events: seq<Event>, x: nat) {
    x < |events| && events[x].Chars? && events[x].decoded.Some? && events[x].decoded.value != ""
  }

  /** Characters before and characters after index `k` are in one group, and so are searched as one text. */
  ghost predicate Joined(events: seq<Event>, k: nat) {
    && Collect(events).Ok?
    && exists a: nat, b: nat, x: nat, y: nat ::
         && JoinedBy(Collect(events).value.nodes, a, b, x, y) && x < k < y
         && HasText(events, x) && HasText(events, y)
  }

  /** Events have text together if and only if one of them has. */
  lemma {:induction false} TextSomewhere(events: seq<Event>, indices: seq<nat>)
    requires CharsAt(events, indices)
    ensures TextAt(events, indices) != "" <==> exists j :: 0 <= j < |indices| && HasText(events, indices[j])
  {
    if indices != [] {
      var n := |indices| - 1;
      TextSomewhere(events, indices[..n]);
      assert forall j :: 0 <= j < n ==> indices[..n][j] == indices[j];
      if TextAt(events, indices[..n]) == "" && TextAt(events, indices) != "" {
        assert HasText(events, indices[n]);
      }
    }
  }

  predicate JoinedBy(nodes: seq<Node>, a: nat, b: nat, x: nat, y: nat) {
    a < |nodes| && b < |nodes| && nodes[a].group == nodes[b].group && Reaches(nodes[a], x) && Reaches(nodes[b], y)
  }

  /** Groups ascend in document order, so the nodes of one group stand together. */
  lemma {:induction false} GroupsAscend(events: seq<Event>, a: nat, b: nat)
    requires Collect(events).Ok? && a < b < |Collect(events).value.nodes|
    ensures Collect(events).value.nodes[a].group <= Collect(events).value.nodes[b].group
  {
    CollectIsCollected(events);
    CollectIsGrouped(events);
    var nodes := Collect(events).value.nodes;
    assert Before(nodes[a], nodes[b]) && NodeFits(events, nodes[b]);
    var x, y := nodes[a].indices[0], nodes[b].indices[0];
    var o, o' := LastOpening(events[..x]).value, LastOpening(events[..y]).value;
    assert events[..x][o] == events[..y][o] == events[o];
    assert events[..x][..o] == events[..o] && events[..y][..o'] == events[..o'];
    BoundariesAscend(events, o, o');
  }

  /** A `t` is open, and there are characters before this point in its group. */
  predicate OpenWithText(c: Collecting) {
    && c.current.Some?
    && (c.current.value.text != ""
        || exists i :: 0 <= i < |c.nodes| && c.nodes[i].group == c.current.value.group && c.nodes[i].text != "")
  }

  // ---- nothing is joined across a start at which no `t` with text is open ----

  /** What is collected after the boundary: the nodes before it, and nodes behind it in other groups. */
  ghost predicate Parted(events: seq<Event>, c: Collecting, d: Collecting, k: nat) {
    && c.nodes <= d.nodes && d.group > c.group
    && (forall i :: |c.nodes| <= i < |d.nodes| ==> Behind(events, c, d.nodes[i], k))
    && (d.current.Some? ==> Behind(events, c, d.current.value, k))
  }

  /** The node has no text before the boundary. */
  predicate Behind(events: seq<Event>, c: Collecting, node: Node, k: nat) {
    && (forall i :: 0 <= i < |node.indices| ==> node.indices[i] > k || !HasText(events, node.indices[i]))
    && (node.group > c.group || (c.current.Some? && node.group == c.current.value.group))
  }

  lemma {:induction false} PartedGrows(events: seq<Event>, c: Collecting, d: Collecting, k: nat, e: Event, index: nat)
    requires Parted(events, c, d, k) && index > k && CollectOne(d, e, index).Ok?
    ensures Parted(events, c, CollectOne(d, e, index).value, k)
  {
    hide HasText;
  }

  /** An open node without text has none at any of its events. */
  lemma {:induction false} SilentCurrent(events: seq<Event>, k: nat)
    requires k <= |events| && Collect(events[..k]).Ok? && Collect(events[..k]).value.current.Some?
    requires Collect(events[..k]).value.current.value.text == ""
    ensures var node := Collect(events[..k]).value.current.value;
            forall i :: 0 <= i < |node.indices| ==> !HasText(events, node.indices[i])
  {
    CollectIsCollected(events[..k]);
    var node := Collect(events[..k]).value.current.value;
    assert NodeFits(events[..k], node);
    TextSomewhere(events[..k], node.indices);
    assert forall i :: 0 <= i < |node.indices| ==> events[..k][node.indices[i]] == events[node.indices[i]];
    hide Collect;
    assert forall i :: 0 <= i < |node.indices| ==> !HasText(events[..k], node.indices[i]);
  }

  lemma {:induction false} PartedBehind(events: seq<Event>, k: nat, n: nat)
    requires k < n <= |events| && IsBoundary(events[k]) && Collect(events).Ok?
    ensures Collect(events[..k]).Ok? && Collect(events[..n]).Ok?
    ensures !OpenWithText(Collect(events[..k]).value) ==>
              Parted(events, Collect(events[..k]).value, Collect(events[..n]).value, k)
    decreases n
  {
    hide HasText;
    PrefixCollects(events, k);
    PrefixCollects(events, n);
    CollectAppend(events[..n - 1], events[n - 1]);
    assert events[..n - 1] + [events[n - 1]] == events[..n];
    if !OpenWithText(Collect(events[..k]).value) {
      if n > k + 1 {
        PartedBehind(events, k, n - 1);
        PartedGrows(events, Collect(events[..k]).value, Collect(events[..n - 1]).value, k, events[n - 1], n - 1);
      } else if Collect(events[..k]).value.current.Some? {
        SilentCurrent(events, k);
      }
    }
  }

  lemma {:induction false} PrefixCollects(events: seq<Event>, n: nat)
    requires n <= |events| && Collect(events).Ok?
    ensures Collect(events[..n]).Ok?
  {
    if Collect(events[..n]).Err? {
      CollectFailsEarly(events, n);
    }
  }

  /** Nodes collected so far lie before this point and in groups up to the current one. */
  lemma {:induction false} NodesLieBefore(events: seq<Event>, i: nat)
    requires Collect(events).Ok? && i < |Collect(events).value.nodes|
    ensures var c := Collect(events).value;
            && c.nodes[i].indices != [] && c.nodes[i].group <= c.group
            && forall j :: 0 <= j < |c.nodes[i].indices| ==> c.nodes[i].indices[j] < |events|
  {
    CollectIsCollected(events);
    CollectIsGrouped(events);
    var node := Collect(events).value.nodes[i];
    assert NodeFits(events, node);
    var o := LastOpening(events[..node.indices[0]]).value;
    BoundariesAscend(events, o, |events|);
    assert events[..|events|] == events && events[..node.indices[0]][..o] == events[..o];
  }

  /** A node with an event that has text has text. */
  lemma {:induction false} NodeHasText(events: seq<Event>, k: nat, i: nat, x: nat)
    requires k <= |events| && Collect(events[..k]).Ok? && i < |Collect(events[..k]).value.nodes|
    requires Reaches(Collect(events[..k]).value.nodes[i], x) && HasText(events, x)
    ensures Collect(events[..k]).value.nodes[i].text != ""
  {
    CollectIsCollected(events[..k]);
    var node := Collect(events[..k]).value.nodes[i];
    assert NodeFits(events[..k], node);
    TextSomewhere(events[..k], node.indices);
    var j :| 0 <= j < |node.indices| && node.indices[j] == x;
    assert HasText(events[..k], node.indices[j]);
  }

  /** Text behind a boundary start is in another group than text before it, unless a `t` of the earlier group is open at
      the start. */
  lemma {:induction false} BoundarySeparatesGroups(events: seq<Event>, k: nat, a: nat, b: nat, x: nat, y: nat)
    requires Collect(events).Ok? && k < |events| && IsBoundary(events[k])
    requires Collect(events[..k]).Ok? && !OpenWithText(Collect(events[..k]).value)
    requires var nodes := Collect(events).value.nodes;
             a < |nodes| && b < |nodes| && Reaches(nodes[a], x) && Reaches(nodes[b], y) && x < k < y
    requires HasText(events, x) && HasText(events, y)
    ensures Collect(events).value.nodes[a].group != Collect(events).value.nodes[b].group
  {
    assert events[..|events|] == events;
    PartedBehind(events, k, |events|);
    var c, d := Collect(events[..k]).value, Collect(events).value;
    assert a < |c.nodes| by {
      assert a >= |c.nodes| ==> Behind(events, c, d.nodes[a], k);
    }
    NodesLieBefore(events[..k], a);
    NodeHasText(events, k, a, x);
    if b < |c.nodes| {
      NodesLieBefore(events[..k], b);
    } else {
      assert Behind(events, c, d.nodes[b], k);
    }
  }

  // ---- and otherwise it can be ----

  const CLOSING := [Chars(Text, Some("x")), End("t")]

  /** Text before this point in the group of the open node. */
  lemma {:induction false} TextBefore(prefix: seq<Event>) returns (node: nat, x: nat)
    requires Collect(prefix).Ok? && OpenWithText(Collect(prefix).value)
    ensures x < |prefix| && HasText(prefix, x)
    ensures var c := Collect(prefix).value; var current := c.current.value;
            if node < |c.nodes| then c.nodes[node].group == current.group && Reaches(c.nodes[node], x)
            else node == |c.nodes| && Reaches(current, x)
  {
    var c := Collect(prefix).value;
    CollectIsCollected(prefix);
    hide Collect, OpenWithText;
    assert OpenWithText(c);
    node := WithText(c);
    var found := if node < |c.nodes| then c.nodes[node] else c.current.value;
    assert NodeFits(prefix, found);
    TextSomewhere(prefix, found.indices);
    var j :| 0 <= j < |found.indices| && HasText(prefix, found.indices[j]);
    x := found.indices[j];
  }

  lemma {:induction false} WithText(c: Collecting) returns (node: nat)
    requires OpenWithText(c)
    ensures if node < |c.nodes| then c.nodes[node].group == c.current.value.group && c.nodes[node].text != ""
            else node == |c.nodes| && c.current.value.text != ""
  {
    if c.current.value.text != "" {
      node := |c.nodes|;
    } else {
      node :| 0 <= node < |c.nodes| && c.nodes[node].group == c.current.value.group && c.nodes[node].text != "";
    }
  }

  /** A `t` that is open at the start goes on behind it. */
  lemma {:induction false} OpenNodeJoins(prefix: seq<Event>, e: Event)
    requires Collect(prefix).Ok? && IsBoundary(e) && OpenWithText(Collect(prefix).value)
    ensures Joined(prefix + [e] + CLOSING, |prefix|)
  {
    var c := Collect(prefix).value;
    var n := |prefix|;
    var node := c.current.value;
    var a, x := TextBefore(prefix);
    CollectAppend(prefix, e);
    CollectAppend(prefix + [e], CLOSING[0]);
    CollectAppend(prefix + [e] + [CLOSING[0]], CLOSING[1]);
    var events := prefix + [e] + CLOSING;
    assert events == prefix + [e] + [CLOSING[0]] + [CLOSING[1]];
    var grown := node.(indices := node.indices + [n + 1], text := node.text + "x");
    var nodes := c.nodes + [grown];
    assert Collect(events).value.nodes == nodes;
    hide Collect, OpenWithText;
    assert grown.indices[|node.indices|] == n + 1;
    assert events[x] == prefix[x] && events[n + 1] == CLOSING[0];
    assert HasText(events, x) && HasText(events, n + 1);
    assert JoinedBy(nodes, a, |c.nodes|, x, n + 1);
  }

  /** Whatever follows, no match crosses a `p`, `si` or `c` start, if and only if no `t` is open there whose group
      already has text. */
  lemma {:induction false} NeverJoinedIff(prefix: seq<Event>, e: Event)
    requires Collect(prefix).Ok? && IsBoundary(e)
    ensures (forall rest :: !Joined(prefix + [e] + rest, |prefix|)) <==> !OpenWithText(Collect(prefix).value)
  {
    if OpenWithText(Collect(prefix).value) {
      OpenNodeJoins(prefix, e);
    } else {
      forall rest
        ensures !Joined(prefix + [e] + rest, |prefix|)
      {
        NotJoined(prefix, e, rest);
      }
    }
  }

  lemma {:induction false} NotJoined(prefix: seq<Event>, e: Event, rest: seq<Event>)
    requires Collect(prefix).Ok? && IsBoundary(e) && !OpenWithText(Collect(prefix).value)
    ensures !Joined(prefix + [e] + rest, |prefix|)
  {
    hide Collect, OpenWithText, IsBoundary;
    var events := prefix + [e] + rest;
    assert events[..|prefix|] == prefix && events[|prefix|] == e;
    if Collect(events).Ok? {
      forall a: nat, b: nat, x: nat, y: nat |
          && JoinedBy(Collect(events).value.nodes, a, b, x, y) && x < |prefix| < y
          && HasText(events, x) && HasText(events, y)
        ensures false
      {
        BoundarySeparatesGroups(events, |prefix|, a, b, x, y);
      }
    }
  }

  // ---- inputs ----

  const SPLIT_OVER_NODES := [Start("t"), Chars(Text, Some("a")), End("t"), Start("t"), Start("p"),
                             Chars(Text, Some("b")), End("p"), End("t")]

  const SPLIT_IN_NODE := [Start("t"), Chars(Text, Some("a")), Start("p"), Chars(Text, Some("b")), End("p"), End("t")]

  /** A `p` inside a `t` does not separate: "ab" is one text across it, over two nodes or within one. */
  lemma {:induction false} StartInsideTextJoins()
    ensures Collect(SPLIT_OVER_NODES).Ok?
            && Collect(SPLIT_OVER_NODES).value.nodes == [Node([1], 0, "a"), Node([5], 0, "b")]
    ensures Joined(SPLIT_OVER_NODES, 4)
    ensures Collect(SPLIT_IN_NODE).Ok? && Collect(SPLIT_IN_NODE).value.nodes == [Node([1, 3], 0, "ab")]
    ensures Joined(SPLIT_IN_NODE, 2)
  {
    CollectOver();
    CollectWithin();
    hide Collect;
    assert HasText(SPLIT_OVER_NODES, 1) && HasText(SPLIT_OVER_NODES, 5);
    assert HasText(SPLIT_IN_NODE, 1) && HasText(SPLIT_IN_NODE, 3);
    assert JoinedBy(Collect(SPLIT_OVER_NODES).value.nodes, 0, 1, 1, 5);
    assert JoinedBy(Collect(SPLIT_IN_NODE).value.nodes, 0, 0, 1, 3);
  }

  lemma {:induction false} Next(events: seq<Event>, i: nat, c: Collecting, d: Collecting)
    requires i < |events| && Collect(events[..i]) == Ok(c) && CollectOne(c, events[i], i) == Ok(d)
    ensures Collect(events[..i + 1]) == Ok(d)
  {
    CollectAppend(events[..i], events[i]);
    assert events[..i] + [events[i]] == events[..i + 1];
  }

  lemma {:induction false} CollectOver()
    ensures Collect(SPLIT_OVER_NODES) == Ok(Collecting(1, None, [Node([1], 0, "a"), Node([5], 0, "b")]))
  {
    hide Collect;
    var events := SPLIT_OVER_NODES;
    var a, b := Node([1], 0, "a"), Node([5], 0, "b");
    CollectNothing();
    assert events[..0] == [] && events[..8] == events;
    assert [] + [1] == [1] && [] + [5] == [5] && "" + "a" == "a" && "" + "b" == "b";
    assert [] + [a] == [a] && [a] + [b] == [a, b];
    Next(events, 0, NOTHING, Collecting(0, Some(Node([], 0, "")), []));
    Next(events, 1, Collecting(0, Some(Node([], 0, "")), []), Collecting(0, Some(a), []));
    Next(events, 2, Collecting(0, Some(a), []), Collecting(0, None, [a]));
    Next(events, 3, Collecting(0, None, [a]), Collecting(0, Some(Node([], 0, "")), [a]));
    Next(events, 4, Collecting(0, Some(Node([], 0, "")), [a]), Collecting(1, Some(Node([], 0, "")), [a]));
    Next(events, 5, Collecting(1, Some(Node([], 0, "")), [a]), Collecting(1, Some(b), [a]));
    Next(events, 6, Collecting(1, Some(b), [a]), Collecting(1, Some(b), [a]));
    Next(events, 7, Collecting(1, Some(b), [a]), Collecting(1, None, [a, b]));
  }

  lemma {:induction false} CollectWithin()
    ensures Collect(SPLIT_IN_NODE) == Ok(Collecting(1, None, [Node([1, 3], 0, "ab")]))
  {
    hide Collect;
    var events := SPLIT_IN_NODE;
    var a, ab := Node([1], 0, "a"), Node([1, 3], 0, "ab");
    CollectNothing();
    assert events[..0] == [] && events[..6] == events;
    assert [] + [1] == [1] && [1] + [3] == [1, 3] && "" + "a" == "a" && "a" + "b" == "ab";
    assert [] + [ab] == [ab];
    Next(events, 0, NOTHING, Collecting(0, Some(Node([], 0, "")), []));
    Next(events, 1, Collecting(0, Some(Node([], 0, "")), []), Collecting(0, Some(a), []));
    Next(events, 2, Collecting(0, Some(a), []), Collecting(1, Some(a), []));
    Next(events, 3, Collecting(1, Some(a), []), Collecting(1, Some(ab), []));
    Next(events, 4, Collecting(1, Some(ab), []), Collecting(1, Some(ab), []));
    Next(events, 5, Collecting(1, Some(ab), []), Collecting(1, None, [ab]));
  }

  lemma {:induction false} CollectNothing()
    ensures Collect([]) == Ok(NOTHING)
  {
  }
}
