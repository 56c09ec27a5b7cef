/** The floating action button: a toggle that reports its new state. */
module Fab {

  /** The button starts closed. */
  const InitialOpen: bool := false

  /** Calls out of the button: the `onChange` prop with the new state, and
      the caller's own `onClick`. */
  datatype FabEffect = NotifyChange(isOpen: bool) | ForwardClick

  /** A click: the state flips, then `onChange` gets the new state, then the
      caller's click handler runs, each only when given. */
  function Click(isOpen: bool, hasOnChange: bool, hasOnClick: bool): (r: (bool, seq<FabEffect>))
    ensures r.0 == !isOpen
    ensures |r.1| == (if hasOnChange then 1 else 0) + (if hasOnClick then 1 else 0)
    ensures hasOnChange ==> r.1[0] == NotifyChange(r.0)
    ensures hasOnClick ==> r.1[|r.1| - 1] == ForwardClick
    ensures forall e :: e in r.1 ==> e == NotifyChange(r.0) || e == ForwardClick
  {
    var next := !isOpen;
    (next, (if hasOnChange then [NotifyChange(next)] else []) + (if hasOnClick then [ForwardClick] else []))
  }

  /** Clicking twice restores the state. */
  lemma ClickTwiceRestores(isOpen: bool, hasOnChange: bool, hasOnClick: bool)
    ensures Click(Click(isOpen, hasOnChange, hasOnClick).0, hasOnChange, hasOnClick).0 == isOpen
  {
  }

  function AfterClicks(n: nat): bool {
    if n == 0 then InitialOpen else Click(AfterClicks(n - 1), false, false).0
  }

  /** After `n` clicks the button is open iff `n` is odd. */
  lemma {:induction false} OpenIffOddClicks(n: nat)
    ensures AfterClicks(n) <==> n % 2 == 1
  {
    if n > 0 {
      OpenIffOddClicks(n - 1);
    }
  }

  datatype Background = White | Gray800

  /** The button's look: white with the plus turned 45 degrees while open,
      dark with the plus upright while closed. */
  datatype FabView = FabView(background: Background, iconRotationDeg: int)

  function View(isOpen: bool): (v: FabView)
    ensures v.background == White <==> isOpen
    ensures v.iconRotationDeg == 45 <==> isOpen
    ensures v.iconRotationDeg == 0 <==> !isOpen
  {
    if isOpen then FabView(White, 45) else FabView(Gray800, 0)
  }

  /** The state reported to `onChange` is the state the button then shows. */
  lemma ReportedStateIsShown(isOpen: bool, hasOnClick: bool)
    ensures var (next, effects) := Click(isOpen, true, hasOnClick);
      effects[0] == NotifyChange(next) && (View(next).background == White <==> effects[0].isOpen)
  {
  }
}
