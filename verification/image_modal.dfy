/** The app-wide image modal: shows one image enlarged. */
module ImageModal {
  import opened Wrappers

  datatype ImageData = ImageData(src: string, alt: Option<string>)

  datatype ImageModalState = ImageModalState(isOpen: bool, data: Option<ImageData>)

  const Initial: ImageModalState := ImageModalState(false, None)
  const DefaultAlt: string := "Feed content enlarged"

  predicate Valid(s: ImageModalState) {
    s.isOpen ==> s.data.Some?
  }

  /** `open(src, alt)`: stores the image and opens. */
  function Open(s: ImageModalState, src: string, alt: Option<string>): (t: ImageModalState)
    ensures t.isOpen && t.data == Some(ImageData(src, alt))
  {
    ImageModalState(true, Some(ImageData(src, alt)))
  }

  /** `close()`: closes but keeps the stored image. */
  function Close(s: ImageModalState): (t: ImageModalState)
    ensures !t.isOpen && t.data == s.data
  {
    s.(isOpen := false)
  }

  /** The dialog's open-change: closing also clears the image. */
  function HandleOpenChange(s: ImageModalState, nextOpen: bool): (t: ImageModalState)
    ensures t.isOpen == nextOpen
    ensures nextOpen ==> t.data == s.data
    ensures !nextOpen ==> t.data.None?
  {
    if nextOpen then s.(isOpen := true) else ImageModalState(false, None)
  }

  /** The rendered image, only while one is stored; alt text defaults when
      absent (an empty alt is kept). */
  datatype ImageView = ImageView(src: string, alt: string)

  function View(s: ImageModalState): (v: Option<ImageView>)
    ensures v.Some? <==> s.data.Some?
    ensures v.Some? ==> v.value.src == s.data.value.src
    ensures v.Some? && s.data.value.alt.Some? ==> v.value.alt == s.data.value.alt.value
    ensures v.Some? && s.data.value.alt.None? ==> v.value.alt == DefaultAlt
  {
    if s.data.None? then None else Some(ImageView(s.data.value.src, s.data.value.alt.GetOr(DefaultAlt)))
  }

  /** Opening shows exactly the given image; dismissing removes it, while a
      programmatic close leaves it rendered in the closed dialog. */
  lemma OpenShowsThenDismissClears(s: ImageModalState, src: string, alt: Option<string>)
    ensures View(Open(s, src, alt)) == Some(ImageView(src, alt.GetOr(DefaultAlt)))
    ensures View(HandleOpenChange(Open(s, src, alt), false)).None?
    ensures View(Close(Open(s, src, alt))) == View(Open(s, src, alt))
  {
  }

  /** The provider's own transitions keep an open dialog supplied with an
      image. */
  lemma TransitionsPreserveValid(s: ImageModalState, src: string, alt: Option<string>)
    requires Valid(s)
    ensures Valid(Open(s, src, alt)) && Valid(Close(s)) && Valid(HandleOpenChange(s, false))
    ensures Valid(HandleOpenChange(s, true)) <==> s.data.Some?
  {
  }
}
