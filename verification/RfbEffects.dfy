/** What a remote-desktop session does for each message, said of the messages themselves. */
module RfbEffects {
  import opened Machine
  import opened Outcomes
  import opened RfbMessages
  import opened RfbServe

  /** The last encodings set before the k-th message allow Tight updates. */
  ghost predicate TightBefore(ms: seq<ClientMessage>, k: nat)
    requires k <= |ms|
  {
    exists j :: 0 <= j < k && ms[j].SetEncodings? && 7 in ms[j].codes
                && forall i :: j < i < k ==> !ms[i].SetEncodings?
  }

  /** The left, middle and right buttons as the last pointer message before the k-th message left them. */
  ghost predicate ButtonsBefore(ms: seq<ClientMessage>, k: nat, held: Byte)
    requires k <= |ms|
  {
    || (held == 0 && forall i :: 0 <= i < k ==> !ms[i].PointerEvent?)
    || exists j :: 0 <= j < k && ms[j].PointerEvent? && held == ms[j].buttons % 8
                   && forall i :: j < i < k ==> !ms[i].PointerEvent?
  }

  /** The text last sent back, if any was. */
  ghost predicate LastSent(effects: seq<Effect>, content: string) {
    exists j :: 0 <= j < |effects| && effects[j] == SendClipboard(content)
                && forall i :: j < i < |effects| ==> !effects[i].SendClipboard?
  }

  /** One effect is tried: it is the next one, or it fails and ends the session. */
  predicate Tries(desktop: Desktop, k: nat, before: seq<Effect>, e: Effect, after: Session) {
    if desktop.fails(k, e) then !after.ok && after.effects == before else after.ok && after.effects == before + [e]
  }

  predicate Nothing(before: seq<Effect>, after: Session) {
    after.ok && after.effects == before
  }

  /** An update, and after it a clipboard text that is not the last one sent. */
  ghost predicate Updated(desktop: Desktop, k: nat, control: bool, before: seq<Effect>, update: Effect,
                          after: Session) {
    if desktop.fails(k, update) then !after.ok && after.effects == before
    else
      var sent := before + [update];
      match desktop.clipboard(k)
      case Holds(content) =>
        if control && !LastSent(sent, content) then Tries(desktop, k, sent, SendClipboard(content), after)
        else Nothing(sent, after)
      case Empty => Nothing(sent, after)
      case Unreadable => if control then !after.ok && after.effects == sent else Nothing(sent, after)
  }

  /** What the k-th message adds to the effects of those before it. */
  ghost predicate Adds(ms: seq<ClientMessage>, k: nat, control: bool, desktop: Desktop, before: seq<Effect>,
                       after: Session)
    requires k < |ms|
  {
    match ms[k]
    case UpdateRequest(_, _, _, width, height) =>
      Updated(desktop, k, control, before, SendUpdate(TightBefore(ms, k), width, height), after)
    case KeyEvent(down, _, _, keysym) =>
      if !control then Nothing(before, after)
      else Tries(desktop, k, before, InjectKey(keysym, if down == 0 then false else true), after)
    case PointerEvent(buttons, x, y) =>
      if !control then Nothing(before, after)
      else exists held: Byte ::
             ButtonsBefore(ms, k, held) && Tries(desktop, k, before, InjectPointer(x, y, buttons, held), after)
    case CutText(_, text) =>
      if !control then Nothing(before, after) else Tries(desktop, k, before, SetClipboard(text), after)
    case _ => Nothing(before, after)
  }

  /** What a session that has not failed knows after the first k messages. */
  ghost predicate Knows(ms: seq<ClientMessage>, k: nat, control: bool, session: Session)
    requires k <= |ms|
  {
    && session.ok && session.handled == k && session.tight == TightBefore(ms, k)
    && (control ==> ButtonsBefore(ms, k, session.previousButtons))
    && Remembers(session)
  }

  ghost predicate Remembers(session: Session) {
    forall content :: session.lastClipboard == Some(content) <==> LastSent(session.effects, content)
  }

  lemma {:induction false} RemembersMore(session: Session, e: Effect, after: Session)
    requires Remembers(session) && after.effects == session.effects + [e]
    requires after.lastClipboard == if e.SendClipboard? then Some(e.content) else session.lastClipboard
    ensures Remembers(after)
  {
    forall content
      ensures after.lastClipboard == Some(content) <==> LastSent(after.effects, content)
    {
      var n := |session.effects|;
      assert after.effects[n] == e && forall i :: 0 <= i < n ==> after.effects[i] == session.effects[i];
      if !e.SendClipboard? {
        if LastSent(session.effects, content) {
          var j :| 0 <= j < n && session.effects[j] == SendClipboard(content)
                   && forall i :: j < i < n ==> !session.effects[i].SendClipboard?;
          assert after.effects[j] == SendClipboard(content);
        }
        if LastSent(after.effects, content) {
          var j :| 0 <= j <= n && after.effects[j] == SendClipboard(content)
                   && forall i :: j < i <= n ==> !after.effects[i].SendClipboard?;
          assert j < n && session.effects[j] == SendClipboard(content);
        }
      }
    }
  }

  lemma {:induction false} ShareAdds(session: Session, k: nat, desktop: Desktop)
    requires session.ok && session.handled == k && Remembers(session)
    ensures var after := ShareClipboard(session, desktop);
            && (match desktop.clipboard(k)
                case Holds(content) =>
                  if !LastSent(session.effects, content) then
                    Tries(desktop, k, session.effects, SendClipboard(content), after)
                  else Nothing(session.effects, after)
                case Empty => Nothing(session.effects, after)
                case Unreadable => !after.ok && after.effects == session.effects)
            && (after.ok ==> Remembers(after))
            && after.tight == session.tight && after.previousButtons == session.previousButtons
  {
    hide Remembers, LastSent;
    match desktop.clipboard(k) {
      case Holds(content) =>
        assert session.lastClipboard == Some(content) <==> LastSent(session.effects, content) by {
          RemembersThis(session, content);
        }
        var after := ShareClipboard(session, desktop);
        if session.lastClipboard != Some(content) && after.ok {
          RemembersMore(session, SendClipboard(content), after);
        }
      case _ =>
    }
  }

  lemma {:induction false} RemembersThis(session: Session, content: string)
    requires Remembers(session)
    ensures session.lastClipboard == Some(content) <==> LastSent(session.effects, content)
  {
  }

  lemma {:induction false} TightMore(ms: seq<ClientMessage>, k: nat)
    requires k < |ms|
    ensures TightBefore(ms, k + 1) <==> if ms[k].SetEncodings? then 7 in ms[k].codes else TightBefore(ms, k)
  {
    if TightBefore(ms, k) && !ms[k].SetEncodings? {
      var j :| 0 <= j < k && ms[j].SetEncodings? && 7 in ms[j].codes && forall i :: j < i < k ==> !ms[i].SetEncodings?;
      assert forall i :: j < i < k + 1 ==> !ms[i].SetEncodings?;
    }
  }

  lemma {:induction false} ButtonsMore(ms: seq<ClientMessage>, k: nat, held: Byte)
    requires k < |ms| && ButtonsBefore(ms, k, held)
    ensures ButtonsBefore(ms, k + 1, if ms[k].PointerEvent? then ms[k].buttons % 8 else held)
  {
    if !ms[k].PointerEvent? && exists i :: 0 <= i < k && ms[i].PointerEvent? {
      var j :| 0 <= j < k && ms[j].PointerEvent? && held == ms[j].buttons % 8
               && forall i :: j < i < k ==> !ms[i].PointerEvent?;
      assert forall i :: j < i < k + 1 ==> !ms[i].PointerEvent?;
    }
  }

  lemma {:induction false} UpdateAdds(session: Session, k: nat, control: bool, desktop: Desktop, width: U16,
                                      height: U16)
    requires session.ok && session.handled == k && Remembers(session)
    ensures var update := SendUpdate(session.tight, width, height);
            var first := Do(session, update, desktop);
            var after := if control && first.ok then ShareClipboard(first, desktop) else first;
            && Updated(desktop, k, control, session.effects, update, after)
            && (after.ok ==> Remembers(after))
            && after.tight == session.tight && after.previousButtons == session.previousButtons
  {
    hide Remembers, LastSent, ShareClipboard;
    var update := SendUpdate(session.tight, width, height);
    var first := Do(session, update, desktop);
    if first.ok {
      RemembersMore(session, update, first);
      if control {
        ShareAdds(first, k, desktop);
      }
    }
  }

  lemma {:induction false} StepAdds(ms: seq<ClientMessage>, k: nat, control: bool, desktop: Desktop, session: Session)
    requires k < |ms| && Knows(ms, k, control, session)
    ensures var after := Apply(session, ms[k], control, desktop);
            && Adds(ms, k, control, desktop, session.effects, after)
            && (after.ok ==> Knows(ms, k + 1, control, after))
  {
    hide Remembers, LastSent, ShareClipboard, TightBefore, ButtonsBefore, Updated;
    var after := Apply(session, ms[k], control, desktop);
    TightMore(ms, k);
    if control {
      ButtonsMore(ms, k, session.previousButtons);
    }
    match ms[k] {
      case UpdateRequest(_, _, _, width, height) =>
        UpdateAdds(session, k, control, desktop, width, height);
        SameUpTo(React(session, ms[k], control, desktop), after, desktop, k, control, session.effects,
                 SendUpdate(session.tight, width, height));
      case _ =>
        SameEffects(session, after, |after.effects| > |session.effects|);
    }
  }

  /** Only the effects and the memory of the clipboard matter. */
  lemma {:induction false} SameEffects(session: Session, after: Session, more: bool)
    requires Remembers(session) && after.lastClipboard == session.lastClipboard
    requires if more then after.effects != [] && after.effects[..|after.effects| - 1] == session.effects
                          && !after.effects[|after.effects| - 1].SendClipboard?
             else after.effects == session.effects
    ensures Remembers(after)
  {
    hide LastSent;
    if more {
      var e := after.effects[|after.effects| - 1];
      assert after.effects == session.effects + [e];
      RemembersMore(session, e, after);
    }
  }

  lemma {:induction false} SameUpTo(a: Session, b: Session, desktop: Desktop, k: nat, control: bool,
                                    before: seq<Effect>, update: Effect)
    requires b == a.(handled := b.handled)
    ensures Updated(desktop, k, control, before, update, a) ==> Updated(desktop, k, control, before, update, b)
    ensures Remembers(a) ==> Remembers(b)
  {
    hide LastSent;
  }

  lemma {:induction false} KnowsAfter(ms: seq<ClientMessage>, k: nat, control: bool, desktop: Desktop)
    requires k <= |ms| && ApplyAll(ms[..k], control, desktop).ok
    ensures Knows(ms, k, control, ApplyAll(ms[..k], control, desktop))
  {
    if k > 0 {
      var before := ApplyAll(ms[..k - 1], control, desktop);
      assert ms[..k][..k - 1] == ms[..k - 1];
      hide Knows, React;
      KnowsAfter(ms, k - 1, control, desktop);
      StepAdds(ms, k - 1, control, desktop, before);
    }
  }

  /** Message by message: while no effect has failed, each message adds the effect it asks for and nothing else. */
  lemma {:induction false} EffectsMean(ms: seq<ClientMessage>, k: nat, control: bool, desktop: Desktop)
    requires k < |ms| && ApplyAll(ms[..k], control, desktop).ok
    ensures Adds(ms, k, control, desktop, ApplyAll(ms[..k], control, desktop).effects,
                 ApplyAll(ms[..k + 1], control, desktop))
  {
    assert ms[..k + 1] == ms[..k] + [ms[k]];
    hide Adds, Knows, Apply, ApplyAll;
    KnowsAfter(ms, k, control, desktop);
    StepAdds(ms, k, control, desktop, ApplyAll(ms[..k], control, desktop));
    ApplyStep(ms[..k], ms[k], control, desktop);
  }

  /** A failed effect ends the session: nothing is done after it. */
  lemma {:induction false} FailedStays(ms: seq<ClientMessage>, k: nat, control: bool, desktop: Desktop)
    requires k <= |ms| && !ApplyAll(ms[..k], control, desktop).ok
    ensures ApplyAll(ms, control, desktop) == ApplyAll(ms[..k], control, desktop)
  {
    if k == |ms| {
      assert ms[..k] == ms;
    } else {
      assert ms[..|ms| - 1][..k] == ms[..k];
      FailedStays(ms[..|ms| - 1], k, control, desktop);
    }
  }

  // ---- the whole session ----

  /** The messages that ask for something. */
  predicate Asks(m: ClientMessage) {
    m.UpdateRequest? || m.KeyEvent? || m.PointerEvent? || m.CutText?
  }

  /** The effect is what the k-th message asks for. */
  ghost predicate AskedBy(ms: seq<ClientMessage>, k: nat, e: Effect)
    requires k < |ms|
  {
    match ms[k]
    case UpdateRequest(_, _, _, width, height) => e == SendUpdate(TightBefore(ms, k), width, height)
    case KeyEvent(down, _, _, keysym) => e == InjectKey(keysym, down != 0)
    case PointerEvent(buttons, x, y) =>
      e.InjectPointer? && e == InjectPointer(x, y, buttons, e.previous) && ButtonsBefore(ms, k, e.previous)
    case CutText(_, text) => e == SetClipboard(text)
    case _ => false
  }

  /** The effects other than texts sent back answer the messages before the k-th that ask for something, one each and in
      order; `at` are the places of these messages. */
  ghost predicate Answered(ms: seq<ClientMessage>, k: nat, at: seq<nat>, effects: seq<Effect>)
    requires k <= |ms|
  {
    && |at| == |effects|
    && (forall a, b :: 0 <= a < b < |at| ==> at[a] < at[b])
    && (forall a :: 0 <= a < |at| ==> at[a] < k && AskedBy(ms, at[a], effects[a]))
    && forall i: nat :: i < k && Asks(ms[i]) ==> i in at
  }

  function WithoutShared(effects: seq<Effect>): seq<Effect> {
    if effects == [] then []
    else
      var e := effects[|effects| - 1];
      WithoutShared(effects[..|effects| - 1]) + if e.SendClipboard? then [] else [e]
  }

  lemma {:induction false} WithoutSharedMore(effects: seq<Effect>, e: Effect)
    ensures WithoutShared(effects + [e]) == WithoutShared(effects) + if e.SendClipboard? then [] else [e]
  {
    assert (effects + [e])[..|effects|] == effects;
  }

  /** With control, a message that asks for something gets one answer, and others get none. */
  lemma {:induction false} OneAnswer(ms: seq<ClientMessage>, k: nat, desktop: Desktop, before: seq<Effect>,
                                     after: Session)
    returns (more: seq<Effect>)
    requires k < |ms| && Adds(ms, k, true, desktop, before, after) && after.ok
    ensures WithoutShared(after.effects) == WithoutShared(before) + more
    ensures if Asks(ms[k]) then |more| == 1 && AskedBy(ms, k, more[0]) else more == []
  {
    hide WithoutShared, TightBefore, ButtonsBefore, LastSent;
    if Asks(ms[k]) {
      var e := after.effects[|before|];
      more := [e];
      WithoutSharedMore(before, e);
      if |after.effects| > |before| + 1 {
        WithoutSharedMore(before + [e], after.effects[|before| + 1]);
      }
    } else {
      more := [];
    }
  }

  lemma {:induction false} AnsweredMore(ms: seq<ClientMessage>, k: nat, at: seq<nat>, effects: seq<Effect>,
                                        more: seq<Effect>)
    requires k < |ms| && Answered(ms, k, at, effects)
    requires if Asks(ms[k]) then |more| == 1 && AskedBy(ms, k, more[0]) else more == []
    ensures Answered(ms, k + 1, at + if Asks(ms[k]) then [k] else [], effects + more)
  {
    hide AskedBy, Asks;
    var at' := at + if Asks(ms[k]) then [k] else [];
    forall i: nat | i < k + 1 && Asks(ms[i])
      ensures i in at'
    {
      if i == k {
        assert at'[|at|] == i;
      } else {
        assert i in at;
      }
    }
  }

  lemma {:induction false} AnsweredUpTo(ms: seq<ClientMessage>, k: nat, desktop: Desktop) returns (at: seq<nat>)
    requires k <= |ms| && ApplyAll(ms[..k], true, desktop).ok
    ensures Answered(ms, k, at, WithoutShared(ApplyAll(ms[..k], true, desktop).effects))
  {
    at := [];
    if k > 0 {
      var before, after := ApplyAll(ms[..k - 1], true, desktop), ApplyAll(ms[..k], true, desktop);
      assert ms[..k][..k - 1] == ms[..k - 1];
      hide Answered, WithoutShared, React, Adds, AskedBy;
      at := AnsweredUpTo(ms, k - 1, desktop);
      EffectsMean(ms, k - 1, true, desktop);
      var more := OneAnswer(ms, k - 1, desktop, before.effects, after);
      AnsweredMore(ms, k - 1, at, WithoutShared(before.effects), more);
      at := at + if Asks(ms[k - 1]) then [k - 1] else [];
    }
  }

  /** In a session with control and without failures every key, pointer, cut-text and update message has its effect,
      once and in the order of the messages. */
  lemma {:induction false} EveryMessageIsAnswered(ms: seq<ClientMessage>, desktop: Desktop)
    requires ApplyAll(ms, true, desktop).ok
    ensures exists at :: Answered(ms, |ms|, at, WithoutShared(ApplyAll(ms, true, desktop).effects))
  {
    hide Answered, WithoutShared, ApplyAll;
    assert ms[..|ms|] == ms;
    var at := AnsweredUpTo(ms, |ms|, desktop);
  }
}
