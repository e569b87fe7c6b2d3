/** The page-lifetime counters fed by the blur, visibilitychange, copy, cut and paste listeners. */
module Signals {
  import opened Verdicts
  import Rules
  import Text

  /** A snapshot of the four counters. */
  datatype Counts = Counts(focusLoss: nat, copies: nat, cuts: nat, pastes: nat)

  const Zero: Counts := Counts(0, 0, 0, 0)

  /** An event the page listens for; `VisibilityChange` carries whether the page became hidden. */
  datatype Event = Blur | VisibilityChange(hidden: bool) | Copy | Cut | Paste

  /** Every counter of `a` is at most the same counter of `b`. */
  predicate AtMost(a: Counts, b: Counts)
  {
    a.focusLoss <= b.focusLoss && a.copies <= b.copies && a.cuts <= b.cuts && a.pastes <= b.pastes
  }

  function Total(c: Counts): nat
  {
    c.focusLoss + c.copies + c.cuts + c.pastes
  }

  /** The listener for `e` runs once. */
  function Step(c: Counts, e: Event): (r: Counts)
    ensures AtMost(c, r)
    ensures Total(r) == Total(c) + (if e == VisibilityChange(false) then 0 else 1)
    ensures r.focusLoss == c.focusLoss + (if e == Blur || e == VisibilityChange(true) then 1 else 0)
    ensures r.copies == c.copies + (if e == Copy then 1 else 0)
    ensures r.cuts == c.cuts + (if e == Cut then 1 else 0)
    ensures r.pastes == c.pastes + (if e == Paste then 1 else 0)
  {
    match e
    case Blur => c.(focusLoss := c.focusLoss + 1)
    case VisibilityChange(hidden) => if hidden then c.(focusLoss := c.focusLoss + 1) else c
    case Copy => c.(copies := c.copies + 1)
    case Cut => c.(cuts := c.cuts + 1)
    case Paste => c.(pastes := c.pastes + 1)
  }

  /** The counters after the listeners have run for `events`, in order. */
  function Replay(c: Counts, events: seq<Event>): (r: Counts)
    ensures r.focusLoss == c.focusLoss + multiset(events)[Blur] + multiset(events)[VisibilityChange(true)]
    ensures r.copies == c.copies + multiset(events)[Copy]
    ensures r.cuts == c.cuts + multiset(events)[Cut]
    ensures r.pastes == c.pastes + multiset(events)[Paste]
  {
    if events == [] then c
    else
      var init, last := events[..|events| - 1], events[|events| - 1];
      assert events == init + [last];
      assert multiset(events) == multiset(init) + multiset{last};
      Step(Replay(c, init), last)
  }

  /** Events delivered in two batches count the same as one batch: nothing resets between them. */
  lemma {:induction false} ReplayAppend(c: Counts, first: seq<Event>, later: seq<Event>)
    ensures Replay(c, first + later) == Replay(Replay(c, first), later)
    decreases |later|
  {
    if later != [] {
      var all := first + later;
      assert all[..|all| - 1] == first + later[..|later| - 1];
      assert all[|all| - 1] == later[|later| - 1];
      ReplayAppend(c, first, later[..|later| - 1]);
    } else {
      assert first + later == first;
    }
  }

  /** The counters never decrease. */
  lemma {:induction false} ReplayMonotone(c: Counts, events: seq<Event>)
    ensures AtMost(c, Replay(c, events))
  {
    if events != [] {
      ReplayMonotone(c, events[..|events| - 1]);
    }
  }

  /** What has happened since an earlier snapshot only adds to it. */
  lemma ReplayLater(c: Counts, first: seq<Event>, later: seq<Event>)
    ensures AtMost(Replay(c, first), Replay(c, first + later))
  {
    ReplayAppend(c, first, later);
    ReplayMonotone(Replay(c, first), later);
  }

  /** So a window-focus or clipboard verdict that was flagged stays flagged for every later run. */
  lemma FlaggedStaysFlagged(c: Counts, events: seq<Event>)
    ensures Rules.CheckWindowFocus(c.focusLoss).status == FlaggedStatus ==>
            Rules.CheckWindowFocus(Replay(c, events).focusLoss).status == FlaggedStatus
    ensures Rules.CheckClipboard(c.copies, c.cuts, c.pastes).status == FlaggedStatus ==>
            var r := Replay(c, events);
            Rules.CheckClipboard(r.copies, r.cuts, r.pastes).status == FlaggedStatus
  {
    ReplayMonotone(c, events);
  }

  /** A blur, a visibility change to visible, a blur and a switch to hidden count three focus losses,
      which the window-focus check flags. */
  lemma FocusLossScenario()
    ensures var c := Step(Step(Step(Step(Zero, Blur), VisibilityChange(false)), Blur), VisibilityChange(true));
      && c == Counts(3, 0, 0, 0)
      && Rules.CheckWindowFocus(c.focusLoss).status == FlaggedStatus
      && Rules.CheckWindowFocus(c.focusLoss).data == "Window lost focus 3 time(s)."
  {
    var c1 := Step(Zero, Blur);
    assert c1 == Counts(1, 0, 0, 0);
    var c2 := Step(c1, VisibilityChange(false));
    assert c2 == c1;
    var c3 := Step(c2, Blur);
    assert c3 == Counts(2, 0, 0, 0);
    var c4 := Step(c3, VisibilityChange(true));
    assert c4 == Counts(3, 0, 0, 0);
    FocusLossText();
  }

  /** Three focus losses are reported as "Window lost focus 3 time(s).". */
  lemma FocusLossText()
    ensures Rules.CheckWindowFocus(3).data == "Window lost focus 3 time(s)."
  {
    Text.DecimalDigit(3);
  }

  /** Five clipboard actions pass; the sixth flags the clipboard check. */
  lemma ClipboardScenario()
    ensures Rules.CheckClipboard(3, 1, 1).status == PassStatus
    ensures Rules.CheckClipboard(3, 1, 2).status == FlaggedStatus
  {
  }

  /** The module-level counters of the page and the listeners that increment them. */
  class SignalCounters {
    var focusLossCount: nat
    var copyCount: nat
    var cutCount: nat
    var pasteCount: nat

    function Snapshot(): Counts
      reads this
    {
      Counts(focusLossCount, copyCount, cutCount, pasteCount)
    }

    /** All four counters start at zero when the page loads. */
    constructor ()
      ensures Snapshot() == Zero
    {
      focusLossCount, copyCount, cutCount, pasteCount := 0, 0, 0, 0;
    }

    method OnBlur()
      modifies this
      ensures Snapshot() == old(Snapshot()).(focusLoss := old(focusLossCount) + 1)
    {
      focusLossCount := focusLossCount + 1;
    }

    method OnVisibilityChange(hidden: bool)
      modifies this
      ensures Snapshot() == if hidden then old(Snapshot()).(focusLoss := old(focusLossCount) + 1)
                            else old(Snapshot())
    {
      if hidden {
        focusLossCount := focusLossCount + 1;
      }
    }

    method OnCopy()
      modifies this
      ensures Snapshot() == old(Snapshot()).(copies := old(copyCount) + 1)
    {
      copyCount := copyCount + 1;
    }

    method OnCut()
      modifies this
      ensures Snapshot() == old(Snapshot()).(cuts := old(cutCount) + 1)
    {
      cutCount := cutCount + 1;
    }

    method OnPaste()
      modifies this
      ensures Snapshot() == old(Snapshot()).(pastes := old(pasteCount) + 1)
    {
      pasteCount := pasteCount + 1;
    }

    /** The browser fires `e` and the listener registered for it runs. */
    method Fire(e: Event)
      modifies this
      ensures Snapshot() == Step(old(Snapshot()), e)
    {
      match e
      case Blur => OnBlur();
      case VisibilityChange(hidden) => OnVisibilityChange(hidden);
      case Copy => OnCopy();
      case Cut => OnCut();
      case Paste => OnPaste();
    }

    /** `checkWindowFocus`: reads the focus-loss counter at the moment it runs. */
    method WindowFocusVerdict() returns (v: Verdict)
      ensures v == Rules.CheckWindowFocus(focusLossCount)
      ensures v.status == FlaggedStatus <==> focusLossCount > 0
    {
      v := Rules.CheckWindowFocus(focusLossCount);
    }

    /** `checkClipboard`: reads the three clipboard counters at the moment it runs. */
    method ClipboardVerdict() returns (v: Verdict)
      ensures v == Rules.CheckClipboard(copyCount, cutCount, pasteCount)
      ensures v.status == FlaggedStatus <==> copyCount + cutCount + pasteCount > Rules.ClipboardThreshold
    {
      v := Rules.CheckClipboard(copyCount, cutCount, pasteCount);
    }
  }
}
