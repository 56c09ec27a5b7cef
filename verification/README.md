# Sseotdabwa web: decision logic in Dafny

This project models the small pure decisions and state machines inside the
Sseotdabwa ("살까말까") web client. Each module follows one source file:

- `Section1Scene`: the scroll-driven geometry of the pre-register intro scene.
  This covers progress, the easing curve, the character pose, the staggered
  opacity windows and the white cover that fades in after the scene.
- `FeedCard`: how a feed card presents a yes/no vote. This covers the status,
  winners and ties, dark bars, which options are clickable, and the caption.
- `FeedContent`: how a server feed item becomes card props. This covers
  relative time, category label, image, percentages, the optimistic counts
  after a vote and the viewer's selection.
- `PreRegisterSheet`: the pre-registration bottom sheet. This covers the
  e-mail gate, registration outcome messages, the on-screen keyboard inset,
  drag-to-dismiss, and the layout inside a container.
- `Api`: the request helper. This covers the base URL, URL resolution, header
  merge, and the decision between a result and an `ApiError`.
- `FeedPaging`: the infinite feed list. This covers the query key, the next
  cursor, and the cursor carried by each page request.
- `AppTarget`: the `/app` route's store choice from the user agent.
- `Section4Scene`, `QrModal`, `ImageModal`, `ConsumptionCard`, `Fab`: small UI
  state machines. Their callbacks and browser calls are modelled as lists of
  effects.
- Two helper modules: `Wrappers` (`Option` for `undefined`, `Result` for throw
  or return) and `Text`. `Text` provides ASCII lower-casing, `includes`, and
  decimal rendering of integers with its inverse.

Numbers are modelled as mathematical values:
- pixels, opacities and percentages as `real`;
- counts, milliseconds and cursors as `int`.

JavaScript's `Math.round` of an exact quotient is `RoundDiv`: the nearest
integer, with halves rounded up.

The scene's `mapRange` has no guard for an empty input range; the code
divides by zero. The model follows the code:
- `MapRange` requires `inMin != inMax`;
- the only caller that can hit an empty range is the cover fade-out with an
  unmeasured container (height 0). `CoverFadeOut` models that case as the
  infinite quotient clamped to 0 or 1, and as "no number" (NaN) exactly at
  the scroll distance.

## Model

| member | source | states |
|---|---|---|
| Section1Scene.Lerp | src/pages/pre-register/components/section1-scene.tsx:10-12 | t = 0 gives a, t = 1 gives b, and for t in [0,1] the result lies between a and b |
| Section1Scene.LerpMonotoneInT | src/pages/pre-register/components/section1-scene.tsx:10-12 | with a <= b, interpolation is non-decreasing in t |
| Section1Scene.Clamp01 | src/pages/pre-register/components/section1-scene.tsx:14-16 | result in [0,1]; identity on [0,1]; 0 at or below 0 and 1 at or above 1 |
| Section1Scene.Clamp01Monotone | src/pages/pre-register/components/section1-scene.tsx:14-16 | clamping preserves order |
| Section1Scene.MapRange | src/pages/pre-register/components/section1-scene.tsx:18-26 | for a non-empty input range, the result lies between outMin and outMax; with inMin < inMax it is outMin at or below inMin and outMax at or above inMax |
| Section1Scene.MapRangeMonotone | src/pages/pre-register/components/section1-scene.tsx:18-26 | with inMin < inMax the map is monotone: non-decreasing toward a larger outMax, non-increasing toward a smaller one |
| Section1Scene.EaseInOut | src/pages/pre-register/components/section1-scene.tsx:28-30 | maps [0,1] into [0,1]; fixes 0, 0.5 and 1; below one half on [0,0.5) and at least one half on [0.5,1] |
| Section1Scene.EaseBranchesAgree | src/pages/pre-register/components/section1-scene.tsx:29 | both quadratic branches give 0.5 at t = 0.5 |
| Section1Scene.EaseInOutSymmetric | src/pages/pre-register/components/section1-scene.tsx:29 | on [0,1], easing 1 - t gives 1 minus easing t |
| Section1Scene.EaseInOutMonotone | src/pages/pre-register/components/section1-scene.tsx:28-30 | easing is non-decreasing on [0,1] |
| Section1Scene.Progress | src/pages/pre-register/components/section1-scene.tsx:45 | for a positive scroll distance: progress in [0,1]; 0 at or above the top, 1 at or past the distance; in between, progress times distance is the scroll offset |
| Section1Scene.ProgressClamped | src/pages/pre-register/components/section1-scene.tsx:45-46 | progress is clamped for every offset, is 1 past the distance, and is 0.5 half way |
| Section1Scene.ProgressMonotone | src/pages/pre-register/components/section1-scene.tsx:45 | scrolling further never decreases progress |
| Section1Scene.PoseAt | src/pages/pre-register/components/section1-scene.tsx:54-57 | the pose is the start anchor at t = 0 and the end anchor at t = 1 |
| Section1Scene.CharacterAnchors | src/pages/pre-register/components/section1-scene.tsx:48-52 | start anchor: bottom -0.14H, left -0.2W, height 100%, shift 0. End anchor: bottom 0.36H, left W/2, height 28%, shift -50 |
| Section1Scene.PoseChannels | src/pages/pre-register/components/section1-scene.tsx:54-57 | all four channels use the same t: shift -50t, height 100 - 72t, and bottom and left each the fraction t of their path |
| Section1Scene.CharacterMovesMonotonically | src/pages/pre-register/components/section1-scene.tsx:45-57 | scrolling down moves the character up and right, shifts it left and shrinks it, never back |
| Section1Scene.AuxOpacities | src/pages/pre-register/components/section1-scene.tsx:64-67 | all four opacities in [0,1]; hint 0 from 25% progress, title 0 from 35%; bubble 1 full up to 35% and 0 from 55%; bubble 2 0 up to 70% and full from 90% |
| Section1Scene.AuxOpacitiesMonotone | src/pages/pre-register/components/section1-scene.tsx:64-67 | as progress grows, title, hint and bubble 1 only fade out and bubble 2 only fades in |
| Section1Scene.OpacitiesMonotone | src/pages/pre-register/components/section1-scene.tsx:45-67 | the same fade directions hold as the scroll offset grows |
| Section1Scene.CoverFadeOut | src/pages/pre-register/components/section1-scene.tsx:69-72 | cover opacity in [0,1]: 0 up to the scroll distance plus 0.7H, 1 from the distance plus H; with H = 0 no number exactly at the distance |
| Section1Scene.CoverFadeOutExample | src/pages/pre-register/components/section1-scene.tsx:69-72 | with H = 667 and distance 1200: clear at 1500, opaque at 2000 |
| Section1Scene.CoverFadeOutUnmeasuredExample | src/pages/pre-register/components/section1-scene.tsx:69-72 | with H = 0 the cover jumps from 0 to 1 at the distance and is NaN at it |
| Section1Scene.Scene | src/pages/pre-register/components/section1-scene.tsx:45-111 | one progress value drives the eased pose, the four opacity windows and the cover; each bubble is marked visible iff its opacity exceeds 0.01; the logo, bubble 2 and hint sit at 4%, 30% and 6% of the container height, and bubble 1 at a fixed 60 pixels |
| Section1Scene.SceneExample | src/pages/pre-register/components/section1-scene.tsx:45-46 | distance 1200: progress and eased value are 0.5 at 600, and progress is 1 at 1200 and 2000 |
| FeedCard.DeriveStatus | src/components/ui/feed-card.tsx:173-180 | ended iff voting is closed; voted iff a selection exists and voting is open; default iff neither |
| FeedCard.Pct | src/components/ui/feed-card.tsx:48 | an option's own percentage when it has one, 0 otherwise |
| FeedCard.MaxPercentage | src/components/ui/feed-card.tsx:182 | the maximum is at least every option's percentage (missing read as 0) and equals one of them |
| FeedCard.WinnersCount | src/components/ui/feed-card.tsx:183-185 | never more winners than options |
| FeedCard.WinnersCountWitnesses | src/components/ui/feed-card.tsx:183-185 | the count of options at a value is positive iff one has it, and above one iff two distinct positions have it |
| FeedCard.TieIffSharedPositiveMax | src/components/ui/feed-card.tsx:182-186 | a tie holds iff two distinct options share the maximum and it is positive |
| FeedCard.IsTie | src/components/ui/feed-card.tsx:182-186 | a tie needs at least two options; TieIffSharedPositiveMax gives the exact condition |
| FeedCard.IsWinner | src/components/ui/feed-card.tsx:287-291 | an option of the list wins iff its percentage is positive and no option has a larger one |
| FeedCard.AllZeroHasNoWinner | src/components/ui/feed-card.tsx:289-291 | with every percentage 0 (or missing) the maximum is 0, there is no tie and no winner |
| FeedCard.ShowDark | src/components/ui/feed-card.tsx:59-64 | never dark in default status; dark iff selected when voted; dark iff tie or winner when ended |
| FeedCard.RenderOption | src/components/ui/feed-card.tsx:48-133 | button iff default; bar and percentage shown otherwise; bar target 0 in default, else the percentage; "mine" icon iff selected and voted; white clip iff dark, with right inset 100 minus the bar |
| FeedCard.Click | src/components/ui/feed-card.tsx:66-75 | a click votes iff the option is a button, and then for exactly its own id |
| FeedCard.RenderCaption | src/components/ui/feed-card.tsx:307-311 | caption iff the count is present and positive; label "진행중" iff voting, "최종결과" otherwise |
| FeedCard.CaptionAgreesWithStatus | src/components/ui/feed-card.tsx:173-188 | a shown caption reads "최종결과" exactly when the card is ended and "진행중" otherwise |
| FeedCard.RenderCard | src/components/ui/feed-card.tsx:164-304 | voting defaults to open; one view per option, with selection, winner and tie from the whole list |
| FeedCard.OnlyDefaultIsInteractive | src/components/ui/feed-card.tsx:66-75 | in default status every option is a light button voting for its own id; otherwise none is clickable |
| FeedCard.VotedHighlightsSelection | src/components/ui/feed-card.tsx:59-64 | while voted, exactly the selected option is dark and shows the "mine" icon |
| FeedCard.EndedHighlightsWinners | src/components/ui/feed-card.tsx:59-64 | once ended, a tie makes every option dark, otherwise exactly the positive-maximum options; no "mine" icon |
| FeedCard.MissingPercentageReadsZero | src/components/ui/feed-card.tsx:48 | a missing percentage shows as 0 and gives a zero-width bar |
| FeedContent.ElapsedMinutes | src/components/feed-content.tsx:26-27 | whole elapsed minutes, floored; 0 for anything under a minute, including future times |
| FeedContent.Bucket | src/components/feed-content.tsx:29-36 | just now under 1 minute, minutes under 60, hours under 1440 minutes, days beyond; hours and days bracket the minutes by floor division |
| FeedContent.FormatTimeAgo | src/components/feed-content.tsx:20-37 | nothing for an absent, empty or unparseable time, otherwise the label of the elapsed bucket |
| FeedContent.TimeAgoLabel | src/components/feed-content.tsx:29-36 | every label has at least four characters and starts with a digit iff it shows a count |
| FeedContent.TimeAgoLabelInjective | src/components/feed-content.tsx:29-36 | different relative times never produce the same label: the text determines the unit and the number |
| FeedContent.RecentOrFutureIsJustNow | src/components/feed-content.tsx:26-29 | less than a minute ago, or in the future, reads "방금 전" |
| FeedContent.TimeAgoExamples | src/components/feed-content.tsx:29-36 | 90 minutes is 1 hour, 3 days and 5 hours is 3 days, 59 minutes 59.999 seconds is 59 minutes |
| FeedContent.MapCategory | src/components/feed-content.tsx:39-55 | nothing for an absent or empty code; the fixed label for the nine known codes; any other code unchanged |
| FeedContent.CategoryShownVerbatimIffUnknown | src/components/feed-content.tsx:42-54 | a code is shown unchanged iff it is unknown; no label is itself a code |
| FeedContent.CategoryLabelsInjective | src/components/feed-content.tsx:42-52 | distinct known codes get distinct labels |
| FeedContent.MapCategoryAsWritten | src/components/feed-content.tsx:54 | a lookup on a plain object returns inherited prototype members for their names |
| FeedContent.ReadProperty | src/components/feed-content.tsx:54 | a property read on an object literal finds an own key first, then an inherited prototype member, and otherwise nothing |
| FeedContent.InheritedCategoryIsNotText | src/components/feed-content.tsx:54 | the code "constructor" yields the inherited constructor, not text |
| FeedContent.AsWrittenAgreesOffPrototype | src/components/feed-content.tsx:54 | off the inherited names, the lookup agrees with MapCategory |
| FeedContent.ToImageUrl | src/components/feed-content.tsx:57-63 | a non-empty viewUrl wins; otherwise the storage key only when it starts with http:// or https://; never an empty URL |
| FeedContent.ImageIsViewUrlOrWebUrl | src/components/feed-content.tsx:57-63 | any image shown is the non-empty viewUrl or an http(s) URL; a bare storage key is never shown |
| FeedContent.RoundDiv | src/components/feed-content.tsx:203 | the nearest integer to p/q, halves rounded up |
| FeedContent.Percent | src/components/feed-content.tsx:203-208 | 0 when nobody voted; otherwise the rounded share of the count in whole percent |
| FeedContent.PercentInRange | src/components/feed-content.tsx:199-210 | a share of a non-negative total lies in [0,100] |
| FeedContent.PercentagesSumTo100Or101 | src/components/feed-content.tsx:199-210 | with at least one vote, the two displayed shares add up to 100 or 101, never less |
| FeedContent.PercentExample | src/components/feed-content.tsx:203-208 | 1 yes and 7 no show as 13% and 88% |
| FeedContent.ChoiceOf | src/components/feed-content.tsx:144 | YES iff the option id is "yes", NO for any other id |
| FeedContent.AfterVote | src/components/feed-content.tsx:154-161 | server counts when present; otherwise the original count plus one for the chosen side only |
| FeedContent.OptimisticCountFollowsChoice | src/components/feed-content.tsx:154-161 | without server counts, the chosen side gains one, the other is unchanged, and the total grows by one |
| FeedContent.RecordVote | src/components/feed-content.tsx:154-161 | only the voted feed's entry changes, and it records the chosen option |
| FeedContent.SelectedVoteId | src/components/feed-content.tsx:190-193 | the local vote if any; else the lower-cased server choice, only when the server says the viewer voted |
| FeedContent.ServerChoiceMatchesOptionIds | src/components/feed-content.tsx:190-192 | server "YES"/"NO" select the card's "yes"/"no" options |
| FeedContent.IsVotingStatus | src/components/feed-content.tsx:227 | voting is open iff the feed status is not "CLOSED" |
| FeedContent.DisplayedCounts | src/components/feed-content.tsx:195-196 | the local counts after a vote, else the feed's, else 0 |
| FeedContent.CardKey | src/components/feed-content.tsx:186 | the key is the feed id, or the list index without one, in a form that Number reads back to that integer |
| FeedContent.ToCardProps | src/components/feed-content.tsx:185-231 | the card gets the card key and the mapped category, time and image; it is voting iff the feed is not CLOSED; after a local vote, that vote's counts and selection; otherwise the feed's counts, with a selection iff the server says the viewer voted with a non-empty choice |
| FeedContent.CardVoteOptionsShape | src/components/feed-content.tsx:195-226 | options "yes" then "no" with percentages in [0,100], both 0 without votes, summing to 100 or 101 otherwise; the caption count is the total |
| FeedContent.ParseRenderedInt | src/components/feed-content.tsx:143 | reading a decimal-rendered integer back gives the integer |
| FeedContent.ParseDecimalInt | src/components/feed-content.tsx:143 | the empty string and any string with a character other than a digit or '-' are not numbers; a digit string reads as its decimal value; a negative result comes from a leading '-' |
| FeedContent.VoteRequestFor | src/components/feed-content.tsx:142-144 | the choice is YES iff the option id is "yes"; a key that renders an integer sends that integer as the feed id |
| FeedContent.VoteRoundTrip | src/components/feed-content.tsx:185-229 | a vote is sent for the card's own feed id (or index); after success the card shows the vote as selected and is voted, or ended if closed |
| PreRegisterSheet.IsValidEmail | src/pages/pre-register/components/pre-register-bottom-sheet.tsx:47-48 | valid iff the e-mail contains an '@' and a '.' somewhere |
| PreRegisterSheet.SubmitEnabled | src/pages/pre-register/components/pre-register-bottom-sheet.tsx:307 | submit is enabled iff the e-mail is valid and no submission is in flight |
| PreRegisterSheet.EmailGateExamples | src/pages/pre-register/components/pre-register-bottom-sheet.tsx:45-48 | the empty initial form cannot be submitted; "@." can, unless a submission is in flight |
| PreRegisterSheet.FailureMessage | src/pages/pre-register/components/pre-register-bottom-sheet.tsx:69-74 | the duplicate-e-mail text iff an ApiError with code PRELAUNCH_001, the retry text otherwise |
| PreRegisterSheet.RegistrationEffects | src/pages/pre-register/components/pre-register-bottom-sheet.tsx:54-75 | success notifies, shows the 3-second snackbar and resets the form, in that order; failure only sets the field error |
| PreRegisterSheet.DuplicateCodeThroughFetch | src/pages/pre-register/components/pre-register-bottom-sheet.tsx:69-74 | a PRELAUNCH_001 payload becomes an ApiError and the duplicate message for any status; a non-ApiError gives the retry message |
| PreRegisterSheet.UpdatedInset | src/pages/pre-register/components/pre-register-bottom-sheet.tsx:92-109 | never negative; 0 without a focused text input; otherwise the window height the viewport leaves uncovered |
| PreRegisterSheet.IsTextInputFocused | src/pages/pre-register/components/pre-register-bottom-sheet.tsx:93-98 | nothing focused is no text field; an editable element always is; otherwise exactly the INPUT and TEXTAREA tags are |
| PreRegisterSheet.KeyboardStep | src/pages/pre-register/components/pre-register-bottom-sheet.tsx:80-123 | closing zeroes the inset and detaches; opening measures only if a viewport exists; events count only while attached; consistency is preserved |
| PreRegisterSheet.KeyboardInsetNeverNegative | src/pages/pre-register/components/pre-register-bottom-sheet.tsx:80-123 | over any event sequence the inset is never negative and is 0 while closed |
| PreRegisterSheet.TouchStart | src/pages/pre-register/components/pre-register-bottom-sheet.tsx:125-131 | records the start and resets the offset |
| PreRegisterSheet.TouchMove | src/pages/pre-register/components/pre-register-bottom-sheet.tsx:133-141 | ignored without a drag or above the start; otherwise records and applies the offset; keeps offsets non-negative |
| PreRegisterSheet.TouchEnd | src/pages/pre-register/components/pre-register-bottom-sheet.tsx:143-153 | always clears the drag; asks to close iff the offset exceeds 80 |
| PreRegisterSheet.MovesRecordLastDownward | src/pages/pre-register/components/pre-register-bottom-sheet.tsx:133-141 | after any moves the recorded offset is the last downward one, not the largest |
| PreRegisterSheet.GestureDismissesIffPastThreshold | src/pages/pre-register/components/pre-register-bottom-sheet.tsx:143-153 | a gesture dismisses iff its last downward offset exceeds 80 |
| PreRegisterSheet.GestureExamples | src/pages/pre-register/components/pre-register-bottom-sheet.tsx:133-153 | down 200 then back to 50 stays open; down 200 then above the start closes |
| PreRegisterSheet.Overlay | src/pages/pre-register/components/pre-register-bottom-sheet.tsx:190-205 | the overlay covers the measured container when there is one, the viewport otherwise |
| PreRegisterSheet.Content | src/pages/pre-register/components/pre-register-bottom-sheet.tsx:207-222 | 14-pixel gaps on both sides of the container, 10 pixels above the keyboard, in either mode |
| PreRegisterSheet.ContentInsideOverlay | src/pages/pre-register/components/pre-register-bottom-sheet.tsx:190-222 | overlay and sheet always agree on the mode; in a container at least 28 pixels wide, the sheet has a non-negative width and lies strictly inside the overlay's horizontal span |
| PreRegisterSheet.HandleOpenChange | src/pages/pre-register/components/pre-register-bottom-sheet.tsx:224-227 | closing resets the form before notifying; opening only notifies |
| PreRegisterSheet.DragDismissKeepsForm | src/pages/pre-register/components/pre-register-bottom-sheet.tsx:148-149 | closing by drag notifies without resetting the form, unlike closing through the dialog |
| Api.StripTrailingSlashes | src/api/custom-fetch.ts:8-10 | the result is a prefix with no trailing slash, and only slashes were removed |
| Api.StripIdempotent | src/api/custom-fetch.ts:8-10 | stripping twice is stripping once |
| Api.StripIsMaximal | src/api/custom-fetch.ts:10 | the result is the unique such prefix: the whole trailing run of slashes goes |
| Api.ApiBaseUrl | src/api/custom-fetch.ts:4-10 | the configured URL stripped, if set; otherwise the development or production default |
| Api.ResolveApiUrl | src/api/custom-fetch.ts:12-16 | absolute URLs unchanged; a path with a leading slash appended to the base; any other path joined with one slash |
| Api.IsAbsoluteUrl | src/api/custom-fetch.ts:13 | an absolute URL has at least seven characters and starts with h or H, so never with '/' |
| Api.AbsoluteExtends | src/api/custom-fetch.ts:13 | anything appended to an absolute URL keeps it absolute |
| Api.RelativeResolvesUnderBase | src/api/custom-fetch.ts:14-15 | a relative URL resolves to the base, one slash, then the URL |
| Api.ResolveIdempotent | src/api/custom-fetch.ts:12-16 | with an absolute base, resolving twice is resolving once |
| Api.DefaultBasesAreAbsolute | src/api/custom-fetch.ts:4-13 | both default bases are absolute; the scheme test ignores case |
| Api.ComposeHeaders | src/api/custom-fetch.ts:26-30 | JSON content type by default; bearer authorization iff a token exists; caller headers win; nothing else added |
| Api.HandleResponse | src/api/custom-fetch.ts:33-47 | an ApiError iff the body parsed with a non-empty errorCode, carrying the status and the message or "Unknown error"; otherwise body and status |
| Api.StatusDoesNotDecide | src/api/custom-fetch.ts:33-47 | the HTTP status never decides success, and an unparseable body never throws |
| Api.PrepareRequest | src/api/custom-fetch.ts:24-31 | the request goes to the resolved URL with the composed headers |
| FeedPaging.DefaultQueryKey | src/api/feeds/use-infinite-feed-list.ts:15-16 | the feeds path, "infinite", then the params only when given |
| FeedPaging.DefaultQueryKeyInjective | src/api/feeds/use-infinite-feed-list.ts:15-16 | different params never share a key |
| FeedPaging.EffectiveQueryKey | src/api/feeds/use-infinite-feed-list.ts:44-45 | a key given in the options overrides the default |
| FeedPaging.NextPageParam | src/api/feeds/use-infinite-feed-list.ts:56-60 | no next page unless the page data exists and says it has one; then its next cursor |
| FeedPaging.PageRequest | src/api/feeds/use-infinite-feed-list.ts:50-54 | the other params unchanged, with the page param as cursor |
| FeedPaging.RequestedCursors | src/api/feeds/use-infinite-feed-list.ts:55-60 | starts with the initial cursor; each later cursor is the previous page's next cursor; stops at the first page without one |
| FeedPaging.PagingStartsUncursored | src/api/feeds/use-infinite-feed-list.ts:55 | the first page is requested without a cursor |
| FeedPaging.PagingExample | src/api/feeds/use-infinite-feed-list.ts:56-60 | a page with next cursor 42, then a last page, requests cursors none then 42 |
| AppTarget.TargetFromUserAgent | src/pages/app/page.tsx:5-13 | Google Play iff "android" occurs; the App Store iff not but an Apple handheld token does; desktop otherwise; all ignoring case |
| AppTarget.TargetLabel | src/pages/app/page.tsx:8-12 | the two stores read "… 로 이동" and desktop reads "desktop!!!" |
| AppTarget.MentionsAndroid | src/pages/app/page.tsx:6-8 | true iff "android" occurs in the user agent in any ASCII letter case |
| AppTarget.MentionsAppleDevice | src/pages/app/page.tsx:6-9 | true iff "iphone", "ipad" or "ipod" occurs in the user agent in any ASCII letter case |
| AppTarget.TargetLabelsDistinct | src/pages/app/page.tsx:8-12 | the three targets show three different texts |
| AppTarget.CaseDoesNotMatter | src/pages/app/page.tsx:6 | user agents equal up to ASCII case get the same target |
| AppTarget.AndroidWinsOverApple | src/pages/app/page.tsx:8 | once "android" occurs, nothing appended changes the target |
| AppTarget.TargetExamples | src/pages/app/page.tsx:6-11 | "ANDROID on iPad" goes to Google Play; "iPhone" to the App Store |
| Text.Includes | src/pages/app/page.tsx:8-11 | includes iff the substring occurs at some position |
| Text.IncludesLowerIff | src/pages/app/page.tsx:6-9 | for a lower-case token, searching the lower-cased string finds exactly the case-insensitive occurrences in the original |
| Text.Lower | src/pages/app/page.tsx:6 | same length; each ASCII capital becomes its small letter and every other character stays |
| Text.NatToString | src/components/feed-content.tsx:30 | a count renders as one or more decimal digits without a leading zero |
| Text.DecimalRoundTrip | src/components/feed-content.tsx:30 | reading back the decimal rendering of a count gives the count |
| Section4Scene.ButtonVoteId | src/pages/pre-register/components/section4-scene.tsx:80-89 | the "예" button reports "yes" and the "아니오" button "no" |
| Section4Scene.Render | src/pages/pre-register/components/section4-scene.tsx:24-109 | opacities passed through; prompt interactive iff section 5 hidden, result iff shown; the yes reply iff the vote is "yes" |
| Section4Scene.ExactlyOneLayerInteractive | src/pages/pre-register/components/section4-scene.tsx:30-103 | exactly one of the two layers takes pointer events |
| Section4Scene.ReplyFollowsButton | src/pages/pre-register/components/section4-scene.tsx:80-109 | the reply follows the button pressed; no answer gives the other reply |
| QrModal.Open | src/components/ui/qr-modal.tsx:59-62 | stores the options, or empty ones, and opens |
| QrModal.Close | src/components/ui/qr-modal.tsx:55-57 | only closes; the options and callback stay, so the closing dialog shows the same content |
| QrModal.OnOpenChange | src/components/ui/qr-modal.tsx:64-70 | closing calls the stored close callback if any and clears the options; opening only opens |
| QrModal.HandleAction | src/components/ui/qr-modal.tsx:72-75 | opens https://sseotdabwa.com in a new isolated tab and closes like Close |
| QrModal.Content | src/components/ui/qr-modal.tsx:89-127 | rendered iff options are stored; the image falls back to the placeholder |
| QrModal.TransitionsPreserveValid | src/components/ui/qr-modal.tsx:55-75 | the provider's transitions keep an open dialog supplied with content |
| QrModal.DismissCallsOnCloseOnce | src/components/ui/qr-modal.tsx:59-70 | open then dismiss calls the close callback exactly once; a second dismissal calls nothing |
| QrModal.CloseAndActionSkipOnClose | src/components/ui/qr-modal.tsx:55-75 | Close keeps the content and the link action never calls the close callback |
| ImageModal.Open | src/components/ui/image-modal.tsx:45-48 | stores the image and alt, and opens |
| ImageModal.Close | src/components/ui/image-modal.tsx:50-52 | only closes; the image stays |
| ImageModal.HandleOpenChange | src/components/ui/image-modal.tsx:54-59 | closing clears the image; opening only opens |
| ImageModal.View | src/components/ui/image-modal.tsx:80-86 | the image renders iff stored; alt defaults to "Feed content enlarged" |
| ImageModal.OpenShowsThenDismissClears | src/components/ui/image-modal.tsx:45-86 | open shows exactly the image; dismissing removes it; Close leaves it |
| ImageModal.TransitionsPreserveValid | src/components/ui/image-modal.tsx:45-59 | the provider's transitions keep an open dialog supplied with an image |
| ConsumptionCard.Init | src/components/ui/consumption-card.tsx:22-29 | visible and mounted both start at defaultVisible, which defaults to true |
| ConsumptionCard.OwnTransitionEnd | src/components/ui/consumption-card.tsx:35-40 | ignored while visible; once hidden, unmounts and calls onClose |
| ConsumptionCard.Step | src/components/ui/consumption-card.tsx:31-44 | nothing reaches an unmounted card; close only hides; consistency kept; hiding and unmounting are final |
| ConsumptionCard.RunLifecycle | src/components/ui/consumption-card.tsx:28-44 | over any run, onClose fires exactly once if the card went from mounted to unmounted, never otherwise |
| ConsumptionCard.CloseThenFadeUnmounts | src/components/ui/consumption-card.tsx:31-40 | close then fade-end unmounts and calls onClose once, with or without a caller transition handler |
| ConsumptionCard.StepAsWritten | src/components/ui/consumption-card.tsx:55-56 | a caller transition handler replaces the card's own |
| ConsumptionCard.AsWrittenCallerHandlerStrandsCard | src/components/ui/consumption-card.tsx:55-56 | with a caller handler, a closed card stays mounted and onClose never fires |
| ConsumptionCard.View | src/components/ui/consumption-card.tsx:42-52 | nothing renders once unmounted; full opacity iff visible |
| Fab.Click | src/components/ui/fab.tsx:16-21 | flips the state; onChange gets the new state, then the caller's click runs, each only when given |
| Fab.ClickTwiceRestores | src/components/ui/fab.tsx:16-18 | two clicks restore the state |
| Fab.OpenIffOddClicks | src/components/ui/fab.tsx:14-18 | from the closed start, open iff an odd number of clicks |
| Fab.View | src/components/ui/fab.tsx:32-43 | white background and a 45-degree icon iff open |
| Fab.ReportedStateIsShown | src/components/ui/fab.tsx:16-43 | the state reported to onChange is the one then shown |

## Left out

- Rendering, CSS classes, animations and Lottie are left out; only the values that drive them are modelled. The 50 ms timer that moves a feed-card bar to its target is replaced by the target itself.
- Network and generated clients (`fetch`, `response.json`, react-query hooks, the vote and registration mutations) are left out. Responses, parsed bodies and the stored access token are parameters.
- Browser APIs are parameters or events: `Date.now`, date parsing, `visualViewport`, focus, `getBoundingClientRect`, `ResizeObserver`, `window.open`, `window.innerHeight`. Listener registration is an "attached" flag.
- Floating point is left out; numbers are exact. `Math.round` of a float quotient, IEEE division and `toLocaleString` are not modelled. NaN and infinities appear only where the scene's empty fade window produces them.
- `Number` is modelled only on decimal integer strings, the only keys the feed creates.
- Lower-casing covers ASCII letters only; Unicode case mapping is not modelled.
- Api.HandleResponse: treats `errorCode` as a string; a non-string truthy `errorCode` in a payload is not modelled.
- FeedPaging.EffectiveQueryKey: models only the key among the query options. The options' spread could also replace `queryFn`, `initialPageParam` or `getNextPageParam`, which is not modelled.
- The feed's loading, error boundary and retry view, the "more" button's console log and the vote error log have no decision logic and are left out.
- The feed card header (profile, category, time, price, image zoom button) is pure prop rendering and is left out.
- Speech-bubble entrance animation: the scene computes the bubbles' visibility flags (opacity above 0.01), but the speech-bubble component accepts only children, class, style and arrow placement (src/pages/pre-register/components/shared.tsx:3-13). It ignores `isVisible`, `animateOn` and `animateDelayMs`, so the flags have no visible effect; only the opacities reach the screen.
- The timer-driven phase sequencer that would feed the later scenes' opacities is not part of this model. No such code is in the modelled files; the scenes receive opacities as inputs.
- Login buttons, analytics, the pre-register provider and layout components are outside the modelled core.

## Findings

| source | as written | input that shows it | evidently intended | confidence | as-written member | corrected member |
|---|---|---|---|---|---|---|
| src/components/feed-content.tsx:54 | `categoryMap[category] ?? category` reads a plain object literal, so inherited `Object.prototype` members are found | category code "constructor" (or "toString", "__proto__") | unknown codes are shown unchanged | medium, not executed | FeedContent.MapCategoryAsWritten | FeedContent.MapCategory |
| src/components/ui/consumption-card.tsx:55-56 | the remaining element attributes are spread after the card's own `onTransitionEnd`, so a caller's `onTransitionEnd` replaces it | a card given `onTransitionEnd`, closed, and its fade finishing | the card unmounts and calls `onClose` whatever handlers the caller adds | medium, not executed | ConsumptionCard.StepAsWritten | ConsumptionCard.Step |
