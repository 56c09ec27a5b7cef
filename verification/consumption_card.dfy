/** The dismissible "consumption" card: closing fades it out, and only when
    the fade finishes is it unmounted and its owner told. */
module ConsumptionCard {
  import opened Wrappers

  /** `isVisible` drives the opacity; `isMounted` whether anything renders. */
  datatype CardState = CardState(isVisible: bool, isMounted: bool)

  /** What reaches the card: its close button, or the end of a transition
      on its root element. */
  datatype CardEvent = CloseClicked | TransitionEnded

  /** Calls out of the card: the `onClose` prop, or an `onTransitionEnd`
      handler the caller passed among the element attributes. */
  datatype CardEffect = InvokeOnClose | InvokeCallerTransitionEnd

  /** Both flags start at `defaultVisible`, which defaults to true. */
  function Init(defaultVisible: Option<bool>): (s: CardState)
    ensures s.isVisible == s.isMounted == defaultVisible.GetOr(true)
  {
    CardState(defaultVisible.GetOr(true), defaultVisible.GetOr(true))
  }

  /** A visible card is mounted. */
  predicate Valid(s: CardState) {
    s.isVisible ==> s.isMounted
  }

  /** The card's own transition-end handler: ignored while visible; once
      hidden it unmounts and tells the owner. */
  function OwnTransitionEnd(s: CardState): (r: (CardState, seq<CardEffect>))
    ensures s.isVisible ==> r == (s, [])
    ensures !s.isVisible ==> r == (CardState(false, false), [InvokeOnClose])
  {
    if s.isVisible then (s, []) else (CardState(false, false), [InvokeOnClose])
  }

  /** One event as the card handles it. An unmounted card renders nothing,
      so no event reaches it. Closing only hides. At a transition's end the
      card's own handler runs and then the caller's, when given. */
  function Step(s: CardState, e: CardEvent, hasCallerHandler: bool): (r: (CardState, seq<CardEffect>))
    ensures !s.isMounted ==> r == (s, [])
    ensures s.isMounted && e == CloseClicked ==> r == (s.(isVisible := false), [])
    ensures s.isMounted && e == TransitionEnded ==>
              r.0 == OwnTransitionEnd(s).0 &&
              r.1 == OwnTransitionEnd(s).1 + (if hasCallerHandler then [InvokeCallerTransitionEnd] else [])
    ensures Valid(s) ==> Valid(r.0)
    ensures !s.isVisible ==> !r.0.isVisible
    ensures !s.isMounted ==> !r.0.isMounted
  {
    if !s.isMounted then (s, [])
    else match e
      case CloseClicked => (s.(isVisible := false), [])
      case TransitionEnded =>
        var (t, effects) := OwnTransitionEnd(s);
        (t, effects + (if hasCallerHandler then [InvokeCallerTransitionEnd] else []))
  }

  /** The events in order, with all effects collected. */
  function Run(s: CardState, events: seq<CardEvent>, hasCallerHandler: bool): (r: (CardState, seq<CardEffect>))
    decreases |events|
  {
    if |events| == 0 then (s, [])
    else
      var (m, before) := Run(s, events[..|events| - 1], hasCallerHandler);
      var (t, last) := Step(m, events[|events| - 1], hasCallerHandler);
      (t, before + last)
  }

  /** Over any run from a consistent state: it stays consistent, a hidden
      card never shows again, an unmounted one never returns, and `onClose`
      fires exactly once if the card went from mounted to unmounted, and
      never otherwise. */
  lemma {:induction false} RunLifecycle(s: CardState, events: seq<CardEvent>, hasCallerHandler: bool)
    requires Valid(s)
    ensures var (t, effects) := Run(s, events, hasCallerHandler);
      && Valid(t)
      && (!s.isVisible ==> !t.isVisible)
      && (!s.isMounted ==> !t.isMounted)
      && multiset(effects)[InvokeOnClose] == (if s.isMounted && !t.isMounted then 1 else 0)
    decreases |events|
  {
    if |events| > 0 {
      var prefix := events[..|events| - 1];
      RunLifecycle(s, prefix, hasCallerHandler);
      var (m, before) := Run(s, prefix, hasCallerHandler);
      var (t, last) := Step(m, events[|events| - 1], hasCallerHandler);
      assert multiset(before + last) == multiset(before) + multiset(last);
    }
  }

  /** From the default state, close then the end of the fade unmounts the
      card and calls `onClose` once, whether or not the caller passed a
      transition handler. */
  lemma CloseThenFadeUnmounts(hasCallerHandler: bool)
    ensures var (t, effects) := Run(Init(None), [CloseClicked, TransitionEnded], hasCallerHandler);
      && !t.isMounted
      && effects == [InvokeOnClose] + (if hasCallerHandler then [InvokeCallerTransitionEnd] else [])
  {
    assert [CloseClicked, TransitionEnded][..1] == [CloseClicked];
  }

  /** The source spreads the remaining element attributes after its own
      transition handler, so a caller's `onTransitionEnd` replaces it. */
  function StepAsWritten(s: CardState, e: CardEvent, hasCallerHandler: bool): (r: (CardState, seq<CardEffect>))
    ensures !hasCallerHandler ==> r == Step(s, e, false)
    ensures s.isMounted && e == TransitionEnded && hasCallerHandler ==> r == (s, [InvokeCallerTransitionEnd])
  {
    if !s.isMounted then (s, [])
    else match e
      case CloseClicked => (s.(isVisible := false), [])
      case TransitionEnded =>
        if hasCallerHandler then (s, [InvokeCallerTransitionEnd])
        else
          assert OwnTransitionEnd(s).1 + [] == OwnTransitionEnd(s).1;
          OwnTransitionEnd(s)
  }

  /** The discrepancy: with a caller transition handler, a closed card is
      left mounted and invisible and `onClose` never fires. */
  lemma AsWrittenCallerHandlerStrandsCard()
    ensures var (hidden, _) := StepAsWritten(Init(None), CloseClicked, true);
      var (t, effects) := StepAsWritten(hidden, TransitionEnded, true);
      && t == CardState(false, true)
      && InvokeOnClose !in effects
  {
  }

  /** The card as rendered: nothing once unmounted, otherwise full or zero
      opacity. */
  datatype CardView = CardView(opacityPercent: int)

  function View(s: CardState): (v: Option<CardView>)
    ensures v.None? <==> !s.isMounted
    ensures v.Some? ==> (v.value.opacityPercent == 100 <==> s.isVisible)
    ensures v.Some? ==> (v.value.opacityPercent == 0 <==> !s.isVisible)
  {
    if !s.isMounted then None else Some(CardView(if s.isVisible then 100 else 0))
  }
}
