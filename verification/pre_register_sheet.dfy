/** The pre-registration bottom sheet: the e-mail gate, the outcome of a
    registration, the on-screen keyboard inset, the drag-to-dismiss gesture
    and the sheet's layout inside an optional container. */
module PreRegisterSheet {
  import opened Wrappers
  import opened Text
  import Api

  /** What the sheet asks of its surroundings, in order. */
  datatype Effect =
    | NotifyOpenChange(open: bool)   // the `onOpenChange` prop
    | NotifySubmitted                // the `onSubmit` prop
    | ShowSnackbar(message: string, durationMs: nat)
    | ResetForm
    | SetEmailError(message: string)

  // ---------------------------------------------------------------------
  // E-mail gate

  /** The loose e-mail check: contains an '@' and a '.' anywhere. */
  function IsValidEmail(email: string): (ok: bool)
    ensures ok <==> (exists i :: OccursAt(email, "@", i)) && (exists j :: OccursAt(email, ".", j))
  {
    Includes(email, "@") && Includes(email, ".")
  }

  /** The submit button is enabled iff the e-mail passes the check and no
      submission is in flight. */
  function SubmitEnabled(email: string, isSubmitting: bool): (enabled: bool)
    ensures enabled <==> IsValidEmail(email) && !isSubmitting
  {
    !(!IsValidEmail(email) || isSubmitting)
  }

  /** The empty initial form cannot be submitted; a character-level check
      is all there is, so "@." already passes. */
  lemma EmailGateExamples()
    ensures !SubmitEnabled("", false)
    ensures SubmitEnabled("@.", false) && !SubmitEnabled("@.", true)
  {
    assert OccursAt("@.", "@", 0) && OccursAt("@.", ".", 1);
  }

  // ---------------------------------------------------------------------
  // Registration outcome

  /** Why a registration failed: an `ApiError`, or anything else thrown. */
  datatype Failure = ApiFailure(error: Api.ApiError) | OtherFailure

  const DuplicateEmailCode: string := "PRELAUNCH_001"
  const DuplicateEmailMessage: string := "이미 신청한 이메일입니다."
  const RetryMessage: string := "오류가 발생했어요. 다시 시도해주세요."
  const SubmittedMessage: string := "제출되었어요! 앱 런칭 후 안내드릴게요 :)"
  const SnackbarDurationMs: nat := 3000

  /** The message shown under the field: the duplicate-e-mail text exactly
      for an `ApiError` with the duplicate code, the retry text otherwise. */
  function FailureMessage(f: Failure): (m: string)
    ensures m == DuplicateEmailMessage <==> f.ApiFailure? && f.error.errorCode == DuplicateEmailCode
    ensures m == RetryMessage <==> !(f.ApiFailure? && f.error.errorCode == DuplicateEmailCode)
  {
    if f.ApiFailure? && f.error.errorCode == DuplicateEmailCode then DuplicateEmailMessage else RetryMessage
  }

  /** The effects of a finished registration: on success the parent is told,
      the confirmation snackbar shows for three seconds and the form resets;
      on failure only the field's error message is set. */
  function RegistrationEffects(outcome: Result<(), Failure>): (effects: seq<Effect>)
    ensures outcome.Ok? ==> effects == [NotifySubmitted, ShowSnackbar(SubmittedMessage, SnackbarDurationMs), ResetForm]
    ensures outcome.Err? ==> effects == [SetEmailError(FailureMessage(outcome.error))]
  {
    match outcome
    case Ok(_) => [NotifySubmitted, ShowSnackbar(SubmittedMessage, SnackbarDurationMs), ResetForm]
    case Err(f) => [SetEmailError(FailureMessage(f))]
  }

  /** A duplicate-code error reached through the request helper yields the
      duplicate message whatever its HTTP status and message; the same code
      outside an `ApiError` does not. */
  lemma DuplicateCodeThroughFetch(status: int, message: Option<string>)
    ensures var r := Api.HandleResponse(status, Some(Api.ResponseBody(Some(DuplicateEmailCode), message)));
      && r.Err?
      && RegistrationEffects(Err(ApiFailure(r.error))) == [SetEmailError(DuplicateEmailMessage)]
    ensures RegistrationEffects(Err(OtherFailure)) == [SetEmailError(RetryMessage)]
  {
  }

  // ---------------------------------------------------------------------
  // Keyboard inset

  /** The visual viewport's measured height and offset. */
  datatype Viewport = Viewport(height: real, offsetTop: real)

  /** The focused element: its tag name and whether it is content-editable. */
  datatype FocusedElement = FocusedElement(tagName: string, isContentEditable: bool)

  /** Focus is in a text field: an input, a text area or an editable element. */
  function IsTextInputFocused(active: Option<FocusedElement>): (r: bool)
    ensures active.None? ==> !r
    ensures active.Some? && active.value.isContentEditable ==> r
    ensures active.Some? && !active.value.isContentEditable ==> (r <==> active.value.tagName in {"INPUT", "TEXTAREA"})
  {
    active.Some? && (active.value.tagName == "INPUT" || active.value.tagName == "TEXTAREA" || active.value.isContentEditable)
  }

  /** The inset one viewport or focus event computes: 0 without a focused
      text input, otherwise the window height the viewport does not cover,
      never negative. */
  function UpdatedInset(vp: Viewport, active: Option<FocusedElement>, innerHeight: real): (inset: real)
    ensures inset >= 0.0
    ensures !IsTextInputFocused(active) ==> inset == 0.0
    ensures IsTextInputFocused(active) && innerHeight >= vp.height + vp.offsetTop ==>
              inset + vp.height + vp.offsetTop == innerHeight
    ensures IsTextInputFocused(active) && innerHeight < vp.height + vp.offsetTop ==> inset == 0.0
  {
    if !IsTextInputFocused(active) then 0.0
    else
      var viewportBottom := vp.height + vp.offsetTop;
      if innerHeight - viewportBottom > 0.0 then innerHeight - viewportBottom else 0.0
  }

  /** The inset and whether viewport and focus listeners are attached. */
  datatype KeyboardState = KeyboardState(open: bool, listening: bool, inset: real)

  const KeyboardInit: KeyboardState := KeyboardState(false, false, 0.0)

  /** What reaches the sheet: the open flag changing (with the viewport, if
      the browser has one, and the focus at that moment), or a viewport
      resize/scroll or focus change. */
  datatype KeyboardEvent =
    | OpenChanged(open: bool, viewport: Option<Viewport>, active: Option<FocusedElement>, innerHeight: real)
    | ViewportOrFocus(vp: Viewport, active: Option<FocusedElement>, innerHeight: real)

  /** The consistent states: closed means inset 0 and no listeners;
      listeners only while open; the inset is never negative. */
  predicate KeyboardValid(s: KeyboardState) {
    s.inset >= 0.0 && (!s.open ==> s.inset == 0.0 && !s.listening) && (s.listening ==> s.open)
  }

  /** One event. Closing zeroes the inset and detaches; opening with a
      viewport attaches and measures at once, opening without one keeps the
      inset; a viewport or focus event only counts while attached. An open
      flag that does not change re-runs nothing. */
  function KeyboardStep(s: KeyboardState, e: KeyboardEvent): (t: KeyboardState)
    ensures e.OpenChanged? && e.open != s.open && !e.open ==> t == KeyboardState(false, false, 0.0)
    ensures e.OpenChanged? && e.open != s.open && e.open && e.viewport.None? ==> t == KeyboardState(true, false, s.inset)
    ensures e.OpenChanged? && e.open != s.open && e.open && e.viewport.Some? ==>
              t == KeyboardState(true, true, UpdatedInset(e.viewport.value, e.active, e.innerHeight))
    ensures e.OpenChanged? && e.open == s.open ==> t == s
    ensures e.ViewportOrFocus? && s.listening ==> t == s.(inset := UpdatedInset(e.vp, e.active, e.innerHeight))
    ensures e.ViewportOrFocus? && !s.listening ==> t == s
    ensures KeyboardValid(s) ==> KeyboardValid(t)
  {
    match e
    case OpenChanged(open, viewport, active, innerHeight) =>
      if open == s.open then s
      else if !open then KeyboardState(false, false, 0.0)
      else if viewport.None? then KeyboardState(true, false, s.inset)
      else KeyboardState(true, true, UpdatedInset(viewport.value, active, innerHeight))
    case ViewportOrFocus(vp, active, innerHeight) =>
      if s.listening then s.(inset := UpdatedInset(vp, active, innerHeight)) else s
  }

  function KeyboardRun(s: KeyboardState, events: seq<KeyboardEvent>): KeyboardState
    decreases |events|
  {
    if |events| == 0 then s else KeyboardStep(KeyboardRun(s, events[..|events| - 1]), events[|events| - 1])
  }

  /** From the initial state, the inset is never negative and is 0 whenever
      the sheet is closed, whatever events arrive. */
  lemma {:induction false} KeyboardInsetNeverNegative(events: seq<KeyboardEvent>)
    ensures KeyboardValid(KeyboardRun(KeyboardInit, events))
    ensures KeyboardRun(KeyboardInit, events).inset >= 0.0
    decreases |events|
  {
    if |events| > 0 {
      KeyboardInsetNeverNegative(events[..|events| - 1]);
    }
  }

  // ---------------------------------------------------------------------
  // Drag to dismiss

  /** The gesture refs and the inline transform: the touch's starting y (absent
      when no drag is in progress), the last recorded downward offset, and
      the translateY applied to the sheet (absent when cleared). */
  datatype DragState = DragState(startY: Option<real>, currentY: real, translateY: Option<real>)

  const DragInit: DragState := DragState(None, 0.0, None)

  /** Offsets beyond this many pixels dismiss the sheet. */
  const DismissThreshold: real := 80.0

  predicate DragValid(s: DragState) {
    s.currentY >= 0.0 && (s.startY.None? ==> s.currentY == 0.0)
  }

  function TouchStart(s: DragState, y: real): (t: DragState)
    ensures t.startY == Some(y) && t.currentY == 0.0 && t.translateY == s.translateY
  {
    DragState(Some(y), 0.0, s.translateY)
  }

  /** A move is ignored without a drag in progress and when it is above the
      start; otherwise its offset is recorded and applied. */
  function TouchMove(s: DragState, y: real): (t: DragState)
    ensures s.startY.None? ==> t == s
    ensures s.startY.Some? && y < s.startY.value ==> t == s
    ensures s.startY.Some? && y >= s.startY.value ==>
              t == DragState(s.startY, y - s.startY.value, Some(y - s.startY.value))
    ensures DragValid(s) ==> DragValid(t)
  {
    if s.startY.None? then s
    else
      var delta := y - s.startY.value;
      if delta < 0.0 then s else DragState(s.startY, delta, Some(delta))
  }

  /** Releasing clears the transform and the drag; the parent is asked to
      close, bypassing the form reset of `HandleOpenChange`, exactly when the
      recorded offset exceeds the threshold. */
  function TouchEnd(s: DragState): (r: (DragState, seq<Effect>))
    ensures r.0 == DragInit
    ensures s.currentY > DismissThreshold ==> r.1 == [NotifyOpenChange(false)]
    ensures s.currentY <= DismissThreshold ==> r.1 == []
  {
    (DragInit, if s.currentY > DismissThreshold then [NotifyOpenChange(false)] else [])
  }

  /** The moves of one gesture, applied in order. */
  function ApplyMoves(s: DragState, ys: seq<real>): DragState
    decreases |ys|
  {
    if |ys| == 0 then s else TouchMove(ApplyMoves(s, ys[..|ys| - 1]), ys[|ys| - 1])
  }

  /** Reference: the offset of the last move at or below the start, 0 when
      there is none. */
  function LastDownwardOffset(y0: real, ys: seq<real>): (d: real)
    ensures d >= 0.0
    decreases |ys|
  {
    if |ys| == 0 then 0.0
    else if ys[|ys| - 1] >= y0 then ys[|ys| - 1] - y0
    else LastDownwardOffset(y0, ys[..|ys| - 1])
  }

  /** After a touch at `y0` and any moves, the recorded offset is the last
      downward one, not the largest: dragging back up above the start keeps
      the earlier offset. */
  lemma {:induction false} MovesRecordLastDownward(s: DragState, y0: real, ys: seq<real>)
    ensures ApplyMoves(TouchStart(s, y0), ys).startY == Some(y0)
    ensures ApplyMoves(TouchStart(s, y0), ys).currentY == LastDownwardOffset(y0, ys)
    decreases |ys|
  {
    if |ys| > 0 {
      MovesRecordLastDownward(s, y0, ys[..|ys| - 1]);
    }
  }

  /** A whole gesture dismisses the sheet iff its last downward offset
      exceeds 80 pixels, and always leaves no drag in progress. */
  lemma GestureDismissesIffPastThreshold(s: DragState, y0: real, ys: seq<real>)
    ensures var r := TouchEnd(ApplyMoves(TouchStart(s, y0), ys));
      && r.0 == DragInit
      && (r.1 == [NotifyOpenChange(false)] <==> LastDownwardOffset(y0, ys) > DismissThreshold)
      && (r.1 == [] <==> LastDownwardOffset(y0, ys) <= DismissThreshold)
  {
    MovesRecordLastDownward(s, y0, ys);
  }

  /** Worked example: down 200 then back to 50 below the start stays open;
      down 200 then above the start closes. */
  lemma GestureExamples()
    ensures TouchEnd(ApplyMoves(TouchStart(DragInit, 100.0), [300.0, 150.0])).1 == []
    ensures TouchEnd(ApplyMoves(TouchStart(DragInit, 100.0), [300.0, 40.0])).1 == [NotifyOpenChange(false)]
  {
    MovesRecordLastDownward(DragInit, 100.0, [300.0, 150.0]);
    MovesRecordLastDownward(DragInit, 100.0, [300.0, 40.0]);
    assert [300.0, 150.0][..1] == [300.0];
    assert [300.0, 40.0][..1] == [300.0];
  }

  // ---------------------------------------------------------------------
  // Layout

  /** A measured container rectangle. */
  datatype Rect = Rect(top: real, left: real, width: real, height: real)

  datatype OverlayStyle = ContainedOverlay(rect: Rect) | ViewportOverlay

  /** The sheet's position: inside a container, absolute coordinates; in the
      viewport, 14-pixel side margins and a bottom offset in pixels added to
      the safe-area inset. */
  datatype ContentStyle =
    | ContainedContent(left: real, width: real, bottom: real)
    | ViewportContent(marginLeft: real, marginRight: real, bottomPx: real)

  const SideGap: real := 14.0
  const BottomGap: real := 10.0

  /** The overlay covers the container when one is given and measured, the
      viewport otherwise. */
  function Overlay(hasContainer: bool, rect: Option<Rect>): (o: OverlayStyle)
    ensures o.ContainedOverlay? <==> hasContainer && rect.Some?
    ensures o.ContainedOverlay? ==> o.rect == rect.value
  {
    if hasContainer && rect.Some? then ContainedOverlay(rect.value) else ViewportOverlay
  }

  /** The sheet keeps a 14-pixel gap on both sides and sits 10 pixels above
      the keyboard, in either mode. */
  function Content(hasContainer: bool, rect: Option<Rect>, keyboardInset: real): (c: ContentStyle)
    ensures c.ContainedContent? <==> hasContainer && rect.Some?
    ensures c.ContainedContent? ==>
              && c.left - rect.value.left == SideGap
              && (rect.value.left + rect.value.width) - (c.left + c.width) == SideGap
              && c.bottom - keyboardInset == BottomGap
    ensures c.ViewportContent? ==>
              c.marginLeft == SideGap && c.marginRight == SideGap && c.bottomPx - keyboardInset == BottomGap
  {
    if hasContainer && rect.Some? then
      ContainedContent(rect.value.left + 14.0, rect.value.width - 28.0, keyboardInset + 10.0)
    else
      ViewportContent(14.0, 14.0, keyboardInset + 10.0)
  }

  /** In a container wide enough for both gaps, the sheet lies horizontally
      inside the overlay, which covers exactly the container; the two styles
      always agree on the mode. */
  lemma ContentInsideOverlay(hasContainer: bool, rect: Option<Rect>, keyboardInset: real)
    ensures Overlay(hasContainer, rect).ContainedOverlay? <==> Content(hasContainer, rect, keyboardInset).ContainedContent?
    ensures var o, c := Overlay(hasContainer, rect), Content(hasContainer, rect, keyboardInset);
      c.ContainedContent? && rect.value.width >= 2.0 * SideGap ==>
        && c.width >= 0.0
        && o.rect.left < c.left
        && c.left + c.width < o.rect.left + o.rect.width
  {
  }

  // ---------------------------------------------------------------------
  // Open / close

  /** The dialog's open-change handler: closing resets the form and then
      tells the parent; opening only tells the parent. */
  function HandleOpenChange(nextOpen: bool): (effects: seq<Effect>)
    ensures |effects| > 0 && effects[|effects| - 1] == NotifyOpenChange(nextOpen)
    ensures ResetForm in effects <==> !nextOpen
    ensures !nextOpen ==> effects[0] == ResetForm
  {
    if !nextOpen then [ResetForm, NotifyOpenChange(false)] else [NotifyOpenChange(true)]
  }

  /** Dismissing by drag closes through the parent directly, so, unlike
      closing through the dialog, it leaves the typed e-mail in the form. */
  lemma DragDismissKeepsForm(s: DragState)
    requires s.currentY > DismissThreshold
    ensures NotifyOpenChange(false) in TouchEnd(s).1 && ResetForm !in TouchEnd(s).1
    ensures ResetForm in HandleOpenChange(false)
  {
  }
}
