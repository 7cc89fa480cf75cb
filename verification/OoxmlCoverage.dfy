/** Which characters of a part are collected: exactly those of its text elements, element by element. */
module OoxmlCoverage {
  import opened Outcomes
  import opened OoxmlRuns

  /** A start or an end of a text element. */
  predicate Tag(e: Event) {
    (e.Start? && e.local == "t") || (e.End? && e.local == "t")
  }

  /** No text element starts or ends from index `i` up to index `j`. */
  predicate Untagged(events: seq<Event>, i: nat, j: nat) {
    forall x :: i <= x < j && x < |events| ==> !Tag(events[x])
  }

  /** The last tag before index `k` is a start. */
  predicate Open(events: seq<Event>, k: nat) {
    exists j :: 0 <= j < k && j < |events| && events[j] == Start("t") && Untagged(events, j + 1, k)
  }

  /** The first tag behind index `k` is an end. */
  predicate Ends(events: seq<Event>, k: nat) {
    exists m :: k < m < |events| && events[m] == End("t") && Untagged(events, k + 1, m)
  }

  /** The event has characters of a text element. */
  predicate InText(events: seq<Event>, k: nat) {
    k < |events| && events[k].Chars? && Open(events, k) && Ends(events, k)
  }

  /** Both events are in one collected node. */
  predicate InOneNode(nodes: seq<Node>, k: nat, l: nat) {
    exists i :: 0 <= i < |nodes| && k in nodes[i].indices && l in nodes[i].indices
  }

  /** The characters of the element that is still open at the end. */
  predicate Hanging(events: seq<Event>, k: nat) {
    k < |events| && events[k].Chars? && Open(events, k) && Untagged(events, k, |events|)
  }

  /** What collecting an event list has to give. */
  ghost predicate Covers(events: seq<Event>, c: Collecting) {
    && (c.current.Some? <==> Open(events, |events|))
    && (c.current.Some? ==> forall k: nat :: k in c.current.value.indices <==> Hanging(events, k))
    && (forall k: nat, l: nat | k <= l :: InOneNode(c.nodes, k, l) <==>
          InText(events, k) && InText(events, l) && Untagged(events, k, l))
  }

  // ---- one more event ----

  lemma {:induction false} UntaggedGrows(events: seq<Event>, e: Event, i: nat, j: nat)
    ensures j <= |events| ==> (Untagged(events + [e], i, j) <==> Untagged(events, i, j))
    ensures i <= |events| ==> (Untagged(events + [e], i, |events| + 1) <==> Untagged(events, i, |events|) && !Tag(e))
  {
    var more := events + [e];
    assert forall x :: 0 <= x < |events| ==> more[x] == events[x];
    assert more[|events|] == e;
  }

  lemma {:induction false} OpenGrows(events: seq<Event>, e: Event, k: nat)
    ensures k <= |events| ==> (Open(events + [e], k) <==> Open(events, k))
    ensures Open(events + [e], |events| + 1) <==> e == Start("t") || (Open(events, |events|) && !Tag(e))
  {
    var more, n := events + [e], |events|;
    assert forall x :: 0 <= x < n ==> more[x] == events[x];
    assert more[n] == e;
    hide Untagged;
    forall i: nat, m: nat | m <= n
      ensures Untagged(more, i, m) <==> Untagged(events, i, m)
    {
      UntaggedGrows(events, e, i, m);
    }
    var end := n + 1;
    forall i: nat | i <= n
      ensures Untagged(more, i, end) <==> Untagged(events, i, n) && !Tag(e)
    {
      UntaggedGrows(events, e, i, n);
    }
    assert Untagged(more, n + 1, n + 1) by {
      Nothing(more, n + 1);
    }
    if e == Start("t") {
      assert more[n] == Start("t") && Untagged(more, n + 1, n + 1);
    } else if Open(events, n) && !Tag(e) {
      var j :| 0 <= j < n && events[j] == Start("t") && Untagged(events, j + 1, n);
      assert more[j] == Start("t") && Untagged(more, j + 1, n + 1);
    }
    if k <= n && Open(events, k) {
      var j :| 0 <= j < k && j < n && events[j] == Start("t") && Untagged(events, j + 1, k);
      assert more[j] == Start("t") && Untagged(more, j + 1, k);
    }
  }

  lemma {:induction false} Nothing(events: seq<Event>, i: nat)
    ensures Untagged(events, i, i)
  {
  }

  /** Ends seen before stay; a new one appears only with an end tag, behind no other tag. */
  lemma {:induction false} EndsGrow(events: seq<Event>, e: Event, k: nat)
    requires k < |events|
    ensures Ends(events + [e], k) <==> Ends(events, k) || (e == End("t") && Untagged(events, k + 1, |events|))
  {
    var more, n := events + [e], |events|;
    assert forall x :: 0 <= x < n ==> more[x] == events[x];
    assert more[n] == e;
    hide Untagged;
    var next := k + 1;
    forall m: nat | m <= n
      ensures Untagged(more, next, m) <==> Untagged(events, next, m)
    {
      UntaggedGrows(events, e, next, m);
    }
    if Ends(events, k) {
      var m :| k < m < n && events[m] == End("t") && Untagged(events, k + 1, m);
      assert more[m] == End("t") && Untagged(more, k + 1, m);
    }
    if e == End("t") && Untagged(events, k + 1, n) {
      assert more[n] == End("t") && Untagged(more, k + 1, n);
    }
  }

  /** What is in a text element after one more event: what was, and with an end tag what was hanging. */
  lemma {:induction false} InTextGrows(events: seq<Event>, e: Event, k: nat)
    ensures InText(events + [e], k) <==> InText(events, k) || (e == End("t") && Hanging(events, k))
    ensures Hanging(events + [e], k) <==>
              if k < |events| then Hanging(events, k) && !Tag(e)
              else k == |events| && e.Chars? && Open(events, |events|)
  {
    var more, n := events + [e], |events|;
    if k < n {
      assert more[k] == events[k];
      OpenGrows(events, e, k);
      EndsGrow(events, e, k);
      UntaggedGrows(events, e, k, n);
      hide Open, Ends;
      assert events[k].Chars? ==> (Untagged(events, k + 1, n) <==> Untagged(events, k, n));
    } else if k == n {
      OpenGrows(events, e, n);
      hide Open;
    }
  }

  /** An end already seen and a stretch without tags exclude each other. */
  lemma {:induction false} EndedIsNotHanging(events: seq<Event>, k: nat, l: nat)
    requires InText(events, k) && Hanging(events, l)
    ensures !Hanging(events, k)
    ensures k <= l ==> !Untagged(events, k, l)
    ensures l <= k ==> !Untagged(events, l, k)
  {
    hide Open;
    var m :| k < m < |events| && events[m] == End("t") && Untagged(events, k + 1, m);
    assert Tag(events[m]);
  }

  lemma {:induction false} CoversGrows(events: seq<Event>, c: Collecting, e: Event)
    requires Covers(events, c) && CollectOne(c, e, |events|).Ok?
    ensures Covers(events + [e], CollectOne(c, e, |events|).value)
  {
    hide Open, InText, Hanging, Untagged, InOneNode;
    var more, n := events + [e], |events|;
    var d := CollectOne(c, e, n).value;
    OpenGrows(events, e, n);
    forall k: nat
      ensures InText(more, k) <==> InText(events, k) || (e == End("t") && Hanging(events, k))
      ensures Hanging(more, k) <==>
                if k < n then Hanging(events, k) && !Tag(e) else k == n && e.Chars? && Open(events, n)
    {
      InTextGrows(events, e, k);
    }
    HangingIsOpen(events);
    CurrentCovers(events, c, e);
    forall k: nat, l: nat | k <= l
      ensures InOneNode(d.nodes, k, l) <==> InText(more, k) && InText(more, l) && Untagged(more, k, l)
    {
      NodesCover(events, c, e, k, l);
    }
  }

  /** Without an open element nothing hangs. */
  lemma {:induction false} HangingIsOpen(events: seq<Event>)
    ensures forall k: nat :: Hanging(events, k) ==> Open(events, |events|) && k < |events|
  {
    forall k: nat | Hanging(events, k)
      ensures Open(events, |events|)
    {
      var j :| 0 <= j < k && j < |events| && events[j] == Start("t") && Untagged(events, j + 1, k);
      assert Untagged(events, j + 1, |events|);
    }
  }

  lemma {:induction false} CurrentCovers(events: seq<Event>, c: Collecting, e: Event)
    requires Covers(events, c) && CollectOne(c, e, |events|).Ok?
    ensures var more := events + [e]; var d := CollectOne(c, e, |events|).value;
            && (d.current.Some? <==> Open(more, |more|))
            && (d.current.Some? ==> forall k: nat :: k in d.current.value.indices <==> Hanging(more, k))
  {
    hide Open, InText, Hanging, Untagged, InOneNode;
    var more, n := events + [e], |events|;
    var d := CollectOne(c, e, n).value;
    OpenGrows(events, e, n);
    HangingIsOpen(events);
    if d.current.Some? {
      forall k: nat
        ensures k in d.current.value.indices <==> Hanging(more, k)
      {
        InTextGrows(events, e, k);
      }
    }
  }

  lemma {:induction false} NodesCover(events: seq<Event>, c: Collecting, e: Event, k: nat, l: nat)
    requires Covers(events, c) && CollectOne(c, e, |events|).Ok? && k <= l
    ensures var more := events + [e];
            InOneNode(CollectOne(c, e, |events|).value.nodes, k, l) <==>
              InText(more, k) && InText(more, l) && Untagged(more, k, l)
  {
    hide Open, InText, Hanging, Untagged, InOneNode;
    var n := |events|;
    var d := CollectOne(c, e, n).value;
    InTextGrows(events, e, k);
    InTextGrows(events, e, l);
    UntaggedGrows(events, e, k, l);
    HangingIsOpen(events);
    InTextIsInside(events, k);
    InTextIsInside(events, l);
    if e == End("t") {
      if InText(events, k) && Hanging(events, l) {
        EndedIsNotHanging(events, k, l);
      }
      if Hanging(events, k) && InText(events, l) {
        EndedIsNotHanging(events, l, k);
      }
      if Hanging(events, k) && Hanging(events, l) {
        HangTogether(events, k, l);
      }
      if c.current.Some? && c.current.value.indices != [] {
        NodeAdded(c.nodes, c.current.value, k, l);
      }
    } else {
      assert d.nodes == c.nodes;
    }
  }

  lemma {:induction false} InTextIsInside(events: seq<Event>, k: nat)
    ensures InText(events, k) ==> k < |events|
  {
  }

  lemma {:induction false} HangTogether(events: seq<Event>, k: nat, l: nat)
    requires Hanging(events, k) && Hanging(events, l) && k <= l
    ensures Untagged(events, k, l)
  {
  }

  lemma {:induction false} NodeAdded(nodes: seq<Node>, node: Node, k: nat, l: nat)
    ensures InOneNode(nodes + [node], k, l) <==> InOneNode(nodes, k, l) || (k in node.indices && l in node.indices)
  {
    var more := nodes + [node];
    if InOneNode(nodes, k, l) {
      var i :| 0 <= i < |nodes| && k in nodes[i].indices && l in nodes[i].indices;
      assert more[i] == nodes[i];
    }
    if k in node.indices && l in node.indices {
      assert more[|nodes|] == node;
    }
  }

  // ---- the whole part ----

  lemma {:induction false} CollectCovers(events: seq<Event>)
    requires Collect(events).Ok?
    ensures Covers(events, Collect(events).value)
  {
    if events == [] {
      assert !Open(events, 0);
    } else {
      hide Covers;
      var before := events[..|events| - 1];
      CollectCovers(before);
      CoversGrows(before, Collect(before).value, events[|events| - 1]);
      assert before + [events[|events| - 1]] == events;
    }
  }

  lemma {:induction false} OneOfTwo(nodes: seq<Node>, k: nat, i: nat, j: nat)
    requires i < |nodes| && j < |nodes| && k in nodes[i].indices && k in nodes[j].indices
    requires forall i, j :: 0 <= i < j < |nodes| ==> Before(nodes[i], nodes[j])
    ensures i == j
  {
    var p :| 0 <= p < |nodes[i].indices| && nodes[i].indices[p] == k;
    var q :| 0 <= q < |nodes[j].indices| && nodes[j].indices[q] == k;
  }

  /** Every character event of a text element is collected, in exactly one node and once, and no other event is; two of
      them are in one node if and only if no tag of a text element is between them. */
  lemma {:induction false} AllTextIsCollected(events: seq<Event>)
    requires Collect(events).Ok?
    ensures var nodes := Collect(events).value.nodes;
            && (forall k: nat :: (exists i :: 0 <= i < |nodes| && k in nodes[i].indices) <==> InText(events, k))
            && (forall k: nat, i: nat, j: nat ::
                  i < |nodes| && j < |nodes| && k in nodes[i].indices && k in nodes[j].indices ==> i == j)
            && (forall i :: 0 <= i < |nodes| ==>
                  forall p, q :: 0 <= p < q < |nodes[i].indices| ==> nodes[i].indices[p] < nodes[i].indices[q])
            && (forall k: nat, l: nat | k <= l ::
                  InOneNode(nodes, k, l) <==> InText(events, k) && InText(events, l) && Untagged(events, k, l))
  {
    CollectCovers(events);
    CollectIsCollected(events);
    var nodes := Collect(events).value.nodes;
    hide Collect, InText;
    forall k: nat
      ensures (exists i :: 0 <= i < |nodes| && k in nodes[i].indices) <==> InText(events, k)
    {
      assert InOneNode(nodes, k, k) <==> InText(events, k) && Untagged(events, k, k);
    }
    forall k: nat, i: nat, j: nat | i < |nodes| && j < |nodes| && k in nodes[i].indices && k in nodes[j].indices
      ensures i == j
    {
      OneOfTwo(nodes, k, i, j);
    }
    assert forall i :: 0 <= i < |nodes| ==> NodeFits(events, nodes[i]);
  }

  /** Collecting fails exactly when a character event of an open element cannot be decoded. */
  lemma {:induction false} CollectFailsIff(events: seq<Event>)
    ensures Collect(events).Err? <==>
            exists k :: 0 <= k < |events| && events[k].Chars? && events[k].decoded.None? && Open(events, k)
  {
    if events != [] {
      var n := |events| - 1;
      var before, e := events[..n], events[n];
      assert events == before + [e];
      CollectFailsIff(before);
      forall k: nat | k <= n
        ensures Open(events, k) <==> Open(before, k)
      {
        OpenGrows(before, e, k);
      }
      if Collect(before).Ok? {
        CollectCovers(before);
      } else {
        var k :| 0 <= k < n && before[k].Chars? && before[k].decoded.None? && Open(before, k);
        assert events[k] == before[k];
      }
      hide Open;
    }
  }

  // ---- groups ----

  predicate Begins(e: Event) {
    e in {Start("p"), Start("si"), Start("c")}
  }

  /** The places before index `j` where a paragraph, a string item or a cell starts. */
  function StartsBefore(events: seq<Event>, j: nat): set<nat> {
    set x: nat | x < j && x < |events| && Begins(events[x])
  }

  lemma {:induction false} StartsAreCounted(events: seq<Event>, j: nat)
    requires j <= |events|
    ensures Boundaries(events[..j]) == |StartsBefore(events, j)|
  {
    if j == 0 {
      assert StartsBefore(events, 0) == {};
    } else {
      StartsAreCounted(events, j - 1);
      assert events[..j][..j - 1] == events[..j - 1];
      BeginsIff(events[j - 1]);
      hide Begins, IsBoundary;
      if IsBoundary(events[j - 1]) {
        assert StartsBefore(events, j) == StartsBefore(events, j - 1) + {j - 1};
      } else {
        assert StartsBefore(events, j) == StartsBefore(events, j - 1);
      }
    }
  }

  lemma {:induction false} BeginsIff(e: Event)
    ensures Begins(e) <==> IsBoundary(e)
  {
  }

  /** A collected event is in the group that is numbered by how many paragraphs, string items and cells start before its
      text element does. */
  lemma {:induction false} GroupIsNumberOfStarts(events: seq<Event>, i: nat)
    requires Collect(events).Ok? && i < |Collect(events).value.nodes|
    ensures var node := Collect(events).value.nodes[i];
            && node.indices != []
            && exists j :: 0 <= j < node.indices[0] && j < |events| && events[j] == Start("t")
                           && Untagged(events, j + 1, node.indices[0]) && node.group == |StartsBefore(events, j)|
  {
    CollectIsGrouped(events);
    AllTextIsCollected(events);
    var node := Collect(events).value.nodes[i];
    hide Collect;
    var k := node.indices[0];
    assert InText(events, k);
    var j :| 0 <= j < k && j < |events| && events[j] == Start("t") && Untagged(events, j + 1, k);
    var o := LastOpening(events[..k]).value;
    assert OpensNode(events[..k][j]) && OpensNode(events[..k][o]) && Tag(events[o]);
    assert o == j;
    assert events[..k][..j] == events[..j];
    StartsAreCounted(events, j);
  }
}
