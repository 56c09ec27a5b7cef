/** The app-wide QR modal: a provider that other components open with an
    optional QR image and close callback. */
module QrModal {
  import opened Wrappers

  /** A callback handed in by the opener, by identity. */
  type CallbackHandle = nat

  /** The options `open` takes; both are optional. */
  datatype QrOptions = QrOptions(qrImageSrc: Option<string>, onClose: Option<CallbackHandle>)

  /** The provider's state: whether the dialog is open and the stored options
      (absent when cleared). */
  datatype QrModalState = QrModalState(isOpen: bool, data: Option<QrOptions>)

  /** What the provider asks of the outside world. */
  datatype QrEffect =
    | InvokeOnClose(handle: CallbackHandle)
    | OpenWindow(url: string, target: string, features: string)

  const LinkUrl: string := "https://sseotdabwa.com"
  const Title: string := "스토어에서 앱을 다운로드 해보세요!"
  const ButtonLabel: string := "링크 연결"

  /** The placeholder image: an inline SVG, URI-encoded, showing "QR 이미지". */
  const DefaultQrImage: string :=
    "data:image/svg+xml;utf8," +
    "%3Csvg%20xmlns%3D%22http%3A%2F%2Fwww.w3.org%2F2000%2Fsvg%22%20width%3D%22180%22%20height%3D%22180%22%20viewBox%3D%220%200%20180%20180%22%20fill%3D%22none%22%3E%3Crect%20width%3D%22180%22%20height%3D%22180%22%20fill%3D%22%23DDDEE4%22%2F%3E%3Ctext%20x%3D%2250%25%22%20y%3D%2250%25%22%20dominant-baseline%3D%22middle%22%20text-anchor%3D%22middle%22%20font-family%3D%22sans-serif%22%20font-size%3D%2220%22%20font-weight%3D%22700%22%20fill%3D%22%23565D6D%22%3EQR%20%EC%9D%B4%EB%AF%B8%EC%A7%80%3C%2Ftext%3E%3C%2Fsvg%3E"

  const Initial: QrModalState := QrModalState(false, None)

  /** Consistent states: an open dialog always has options to show. */
  predicate Valid(s: QrModalState) {
    s.isOpen ==> s.data.Some?
  }

  /** `open`: stores the options, empty ones when none are given, and opens. */
  function Open(s: QrModalState, options: Option<QrOptions>): (t: QrModalState)
    ensures t.isOpen && t.data.Some?
    ensures options.Some? ==> t.data == options
    ensures options.None? ==> t.data == Some(QrOptions(None, None))
  {
    QrModalState(true, Some(options.GetOr(QrOptions(None, None))))
  }

  /** `close`: only closes; the options and their callback stay, so the
      closing dialog keeps rendering the same content. */
  function Close(s: QrModalState): (t: QrModalState)
    ensures !t.isOpen && t.data == s.data
    ensures Content(t) == Content(s)
    ensures Valid(t)
  {
    s.(isOpen := false)
  }

  /** The dialog's own open-change: closing also calls the stored close
      callback, if any, and clears the options; opening only opens. */
  function OnOpenChange(s: QrModalState, nextOpen: bool): (r: (QrModalState, seq<QrEffect>))
    ensures r.0.isOpen == nextOpen
    ensures nextOpen ==> r.0.data == s.data && r.1 == []
    ensures !nextOpen ==> r.0.data.None?
    ensures !nextOpen && s.data.Some? && s.data.value.onClose.Some? ==> r.1 == [InvokeOnClose(s.data.value.onClose.value)]
    ensures !nextOpen && !(s.data.Some? && s.data.value.onClose.Some?) ==> r.1 == []
  {
    if nextOpen then (s.(isOpen := true), [])
    else
      var effects := if s.data.Some? && s.data.value.onClose.Some? then [InvokeOnClose(s.data.value.onClose.value)] else [];
      (QrModalState(false, None), effects)
  }

  /** The link button: opens the store link in a new, isolated tab and
      closes, keeping the options and not calling the close callback. */
  function HandleAction(s: QrModalState): (r: (QrModalState, seq<QrEffect>))
    ensures r.0 == Close(s)
    ensures r.1 == [OpenWindow(LinkUrl, "_blank", "noopener,noreferrer")]
  {
    (s.(isOpen := false), [OpenWindow(LinkUrl, "_blank", "noopener,noreferrer")])
  }

  /** The dialog body: title, image and button, rendered only while options
      are stored; the image falls back to the placeholder. */
  datatype QrContent = QrContent(title: string, imageSrc: string, buttonLabel: string)

  function Content(s: QrModalState): (c: Option<QrContent>)
    ensures c.Some? <==> s.data.Some?
    ensures c.Some? ==> c.value.title == Title && c.value.buttonLabel == ButtonLabel
    ensures c.Some? && s.data.value.qrImageSrc.Some? ==> c.value.imageSrc == s.data.value.qrImageSrc.value
    ensures c.Some? && s.data.value.qrImageSrc.None? ==> c.value.imageSrc == DefaultQrImage
  {
    if s.data.None? then None
    else Some(QrContent(Title, s.data.value.qrImageSrc.GetOr(DefaultQrImage), ButtonLabel))
  }

  /** Every transition the provider itself drives keeps an open dialog
      supplied with content. (The dialog never asks to open by itself: it
      has no trigger.) */
  lemma TransitionsPreserveValid(s: QrModalState, options: Option<QrOptions>)
    requires Valid(s)
    ensures Valid(Open(s, options)) && Valid(Close(s)) && Valid(HandleAction(s).0) && Valid(OnOpenChange(s, false).0)
    ensures Valid(OnOpenChange(s, true).0) <==> s.data.Some?
  {
  }

  /** Opening then dismissing through the dialog calls the opener's close
      callback exactly once; a second dismissal calls nothing. */
  lemma DismissCallsOnCloseOnce(s: QrModalState, src: Option<string>, h: CallbackHandle)
    ensures var shown := Open(s, Some(QrOptions(src, Some(h))));
      var (closed, effects) := OnOpenChange(shown, false);
      && Content(shown).Some?
      && effects == [InvokeOnClose(h)]
      && OnOpenChange(closed, false).1 == []
      && Content(closed).None?
  {
  }

  /** Closing programmatically or through the link button never calls the
      close callback and keeps the content, unlike a dismissal. */
  lemma CloseAndActionSkipOnClose(s: QrModalState)
    ensures Content(Close(s)) == Content(s)
    ensures forall e :: e in HandleAction(s).1 ==> !e.InvokeOnClose?
  {
  }
}
