/** When reading a log by `cursor > after` misses nothing. Log cursors come from a sequence that a transaction advances
    before it commits, so rows can become visible in another order than their cursors. */
module SyncCursorOrder {

  // ---- a reader of a log whose rows become visible one by one ----

  datatype Event = Visible(cursor: nat) | Poll

  datatype Reader = Reader(visible: seq<nat>, delivered: set<nat>, cursor: nat)

  const START := Reader([], {}, 0)

  function Greatest(s: seq<nat>, least: nat): (m: nat)
    ensures m >= least
    ensures forall i :: 0 <= i < |s| ==> s[i] <= m
    ensures m == least || m in s
  {
    if s == [] then least
    else
      var m := Greatest(s[..|s| - 1], least);
      if s[|s| - 1] > m then s[|s| - 1] else m
  }

  /** A poll reads every visible row after the reader's cursor and continues after the last of them. */
  function Observe(r: Reader, e: Event): Reader {
    match e
    case Visible(c) => r.(visible := r.visible + [c])
    case Poll =>
      Reader(r.visible, r.delivered + (set c | c in r.visible && c > r.cursor), Greatest(r.visible, r.cursor))
  }

  function Read(events: seq<Event>): Reader {
    if events == [] then START else Observe(Read(events[..|events| - 1]), events[|events| - 1])
  }

  function Order(events: seq<Event>): seq<nat> {
    if events == [] then []
    else
      var before := Order(events[..|events| - 1]);
      match events[|events| - 1]
      case Visible(c) => before + [c]
      case Poll => before
  }

  predicate Ascending(cursors: seq<nat>) {
    forall i, j :: 0 <= i < j < |cursors| ==> cursors[i] < cursors[j]
  }

  predicate Positive(cursors: seq<nat>) {
    forall i :: 0 <= i < |cursors| ==> cursors[i] >= 1
  }

  predicate Distinct(cursors: seq<nat>) {
    forall i, j :: 0 <= i < j < |cursors| ==> cursors[i] != cursors[j]
  }

  /** A row behind the reader's cursor that the reader never saw and never will. */
  predicate Misses(r: Reader) {
    exists c :: c in r.visible && c <= r.cursor && c !in r.delivered
  }

  lemma {:induction false} VisibleInOrder(events: seq<Event>)
    ensures Read(events).visible == Order(events)
  {
    if events != [] {
      VisibleInOrder(events[..|events| - 1]);
    }
  }

  lemma {:induction false} AscendingMissesNothing(events: seq<Event>)
    requires Ascending(Order(events)) && Positive(Order(events))
    ensures var r := Read(events); !Misses(r) && (r.cursor == 0 || r.cursor in r.visible)
  {
    if events != [] {
      var before := events[..|events| - 1];
      assert Order(before) <= Order(events);
      AscendingMissesNothing(before);
      VisibleInOrder(events);
      var r := Read(before);
      var e := events[|events| - 1];
      if e.Visible? {
        VisibleInOrder(before);
        assert Order(events)[|Order(before)|] == e.cursor;
      }
    }
  }

  /** Rows that become visible without a poll in between. */
  function Quietly(cursors: seq<nat>): (events: seq<Event>)
    ensures |events| == |cursors|
  {
    if cursors == [] then [] else Quietly(cursors[..|cursors| - 1]) + [Visible(cursors[|cursors| - 1])]
  }

  lemma {:induction false} ReadOne(events: seq<Event>, e: Event)
    ensures Read(events + [e]) == Observe(Read(events), e)
    ensures Order(events + [e]) == Order(events) + if e.Visible? then [e.cursor] else []
  {
    assert (events + [e])[..|events|] == events;
  }

  lemma {:induction false} QuietlyOnlyShows(events: seq<Event>, cursors: seq<nat>)
    ensures Read(events + Quietly(cursors)) == Read(events).(visible := Read(events).visible + cursors)
    ensures Order(events + Quietly(cursors)) == Order(events) + cursors
  {
    hide Read, Order;
    if cursors == [] {
      assert events + Quietly(cursors) == events;
    } else {
      var before := cursors[..|cursors| - 1];
      var last := cursors[|cursors| - 1];
      QuietlyOnlyShows(events, before);
      ReadOne(events + Quietly(before), Visible(last));
      assert events + Quietly(cursors) == events + Quietly(before) + [Visible(last)];
      assert cursors == before + [last];
      assert Read(events).visible + before + [last] == Read(events).visible + cursors;
      assert Order(events) + before + [last] == Order(events) + cursors;
    }
  }

  /** A reader that polls once, right after the row at index `i` has become visible. */
  function PollAt(cursors: seq<nat>, i: nat): seq<Event>
    requires i < |cursors|
  {
    Quietly(cursors[..i + 1]) + [Poll] + Quietly(cursors[i + 1..])
  }

  lemma {:induction false} LateRowIsMissed(cursors: seq<nat>, i: nat, j: nat)
    requires Distinct(cursors) && i < j < |cursors| && cursors[j] < cursors[i]
    ensures Order(PollAt(cursors, i)) == cursors && Misses(Read(PollAt(cursors, i)))
  {
    hide Read, Order, Greatest, PollAt;
    var r := PolledOnce(cursors, i);
    var shown := cursors[..i + 1];
    assert forall k :: 0 <= k < |shown| ==> shown[k] == cursors[k] && cursors[k] != cursors[j];
    assert cursors[j] in r.visible && cursors[j] !in r.delivered;
  }

  /** What such a reader has seen in the end: only the rows that were visible at its poll. */
  lemma {:induction false} PolledOnce(cursors: seq<nat>, i: nat) returns (r: Reader)
    requires i < |cursors|
    ensures r == Read(PollAt(cursors, i)) && Order(PollAt(cursors, i)) == cursors && r.visible == cursors
    ensures forall c :: c in r.delivered ==> c in cursors[..i + 1]
    ensures forall k :: 0 <= k <= i ==> cursors[k] <= r.cursor
  {
    hide Read, Order, Quietly, Greatest;
    var shown, rest := cursors[..i + 1], cursors[i + 1..];
    QuietlyOnlyShows([], shown);
    StartIsEmpty();
    assert [] + Quietly(shown) == Quietly(shown);
    ReadOne(Quietly(shown), Poll);
    QuietlyOnlyShows(Quietly(shown) + [Poll], rest);
    assert shown + rest == cursors;
    r := Read(PollAt(cursors, i));
    assert forall k :: 0 <= k <= i ==> shown[k] == cursors[k];
  }

  lemma {:induction false} StartIsEmpty()
    ensures Read([]) == START && Order([]) == []
  {
  }

  /** Whenever it polls, a reader misses nothing: this holds for every reader exactly when rows become visible in the
      order of their cursors. */
  lemma {:induction false} NoReaderMissesIffAscending(cursors: seq<nat>)
    requires Positive(cursors) && Distinct(cursors)
    ensures (forall events :: Order(events) == cursors ==> !Misses(Read(events))) <==> Ascending(cursors)
  {
    if Ascending(cursors) {
      forall events | Order(events) == cursors ensures !Misses(Read(events)) {
        AscendingMissesNothing(events);
      }
    } else {
      var i, j :| 0 <= i < j < |cursors| && cursors[i] >= cursors[j];
      LateRowIsMissed(cursors, i, j);
    }
  }

  // ---- the transactions that write the log ----

  /** A transaction takes a log cursor and later commits. Those that check the storage quota hold the user's quota lock
      from before the first until after the second; publishing a tombstone takes no such lock. */
  datatype TxStep = Take(tx: nat, locks: bool) | Finish(tx: nat)

  datatype Held = Held(cursor: nat, locks: bool)

  datatype Db = Db(next: nat, open: map<nat, Held>, committed: seq<nat>)

  function TxDo(db: Db, step: TxStep): Db {
    match step
    case Take(tx, locks) =>
      if tx in db.open || (locks && exists t :: t in db.open && db.open[t].locks) then db
      else Db(db.next + 1, db.open[tx := Held(db.next, locks)], db.committed)
    case Finish(tx) =>
      if tx !in db.open then db else Db(db.next, db.open - {tx}, db.committed + [db.open[tx].cursor])
  }

  function TxRun(steps: seq<TxStep>): Db {
    if steps == [] then Db(1, map[], []) else TxDo(TxRun(steps[..|steps| - 1]), steps[|steps| - 1])
  }

  predicate AllLock(steps: seq<TxStep>) {
    forall i :: 0 <= i < |steps| ==> steps[i].Take? ==> steps[i].locks
  }

  ghost predicate OneWriter(db: Db) {
    && db.next >= 1 && Positive(db.committed) && Ascending(db.committed)
    && (forall t :: t in db.open ==> db.open[t].locks && 1 <= db.open[t].cursor < db.next)
    && (forall t, u :: t in db.open && u in db.open ==> t == u)
    && (forall i :: 0 <= i < |db.committed| ==> db.committed[i] < db.next)
    && (forall t, i :: t in db.open && 0 <= i < |db.committed| ==> db.committed[i] < db.open[t].cursor)
  }

  lemma {:induction false} LockKeepsOneWriter(db: Db, step: TxStep)
    requires OneWriter(db) && (step.Take? ==> step.locks)
    ensures OneWriter(TxDo(db, step))
  {
  }

  lemma {:induction false} OneWriterAlways(steps: seq<TxStep>)
    requires AllLock(steps)
    ensures OneWriter(TxRun(steps))
  {
    if steps != [] {
      OneWriterAlways(steps[..|steps| - 1]);
      LockKeepsOneWriter(TxRun(steps[..|steps| - 1]), steps[|steps| - 1]);
    }
  }

  /** As long as every writer holds the quota lock, no reader of the log ever misses a row. */
  lemma {:induction false} LockedLogMissesNothing(steps: seq<TxStep>, events: seq<Event>)
    requires AllLock(steps) && Order(events) == TxRun(steps).committed
    ensures !Misses(Read(events))
  {
    OneWriterAlways(steps);
    AscendingMissesNothing(events);
  }

  /** A tombstone publication that another writer overtakes between its cursor and its commit is lost to a reader that
      polls in between. */
  lemma {:induction false} OvertakenTombstoneIsMissed()
    ensures var steps := [Take(1, false), Take(2, true), Finish(2), Finish(1)];
            TxRun(steps).committed == [2, 1] && exists events :: Order(events) == [2, 1] && Misses(Read(events))
  {
    TxOne([], Take(1, false));
    TxOne([Take(1, false)], Take(2, true));
    TxOne([Take(1, false), Take(2, true)], Finish(2));
    TxOne([Take(1, false), Take(2, true), Finish(2)], Finish(1));
    assert [] + [Take(1, false)] == [Take(1, false)];
    assert [Take(1, false)] + [Take(2, true)] == [Take(1, false), Take(2, true)];
    assert [Take(1, false), Take(2, true)] + [Finish(2)] == [Take(1, false), Take(2, true), Finish(2)];
    assert [Take(1, false), Take(2, true), Finish(2)] + [Finish(1)] ==
             [Take(1, false), Take(2, true), Finish(2), Finish(1)];
    LateRowIsMissed([2, 1], 0, 1);
  }

  lemma {:induction false} TxOne(steps: seq<TxStep>, step: TxStep)
    ensures TxRun(steps + [step]) == TxDo(TxRun(steps), step)
  {
    assert (steps + [step])[..|steps|] == steps;
  }
}
