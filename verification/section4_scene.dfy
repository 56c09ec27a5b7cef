/** The fourth intro scene: a yes/no question that, once the next section
    appears, gives way to a reply depending on the answer. */
module Section4Scene {
  import opened Wrappers

  const YesReply: string := "여기서 고민을 해결해보면 어때?"
  const OtherReply: string := "소비 정보에도 참고되니 놀러와줘~!"

  /** The two answer buttons, "예" and "아니오". */
  datatype AnswerButton = YesButton | NoButton

  /** The vote id a button reports. */
  function ButtonVoteId(b: AnswerButton): (id: string)
    ensures id == "yes" <==> b == YesButton
    ensures id == "no" <==> b == NoButton
  {
    match b
    case YesButton => "yes"
    case NoButton => "no"
  }

  /** What the scene shows: the three fade-layer opacities, which layer
      takes pointer events, and the reply text. */
  datatype Section4View = Section4View(
    sceneOpacity: real,
    promptOpacity: real,
    resultOpacity: real,
    promptInteractive: bool,
    resultInteractive: bool,
    reply: string)

  function Render(opacity: real, promptOpacity: real, resultOpacity: real, voteId: Option<string>, isSection5Visible: bool): (v: Section4View)
    ensures v.sceneOpacity == opacity && v.promptOpacity == promptOpacity && v.resultOpacity == resultOpacity
    ensures v.promptInteractive <==> !isSection5Visible
    ensures v.resultInteractive <==> isSection5Visible
    ensures v.reply == YesReply <==> voteId == Some("yes")
    ensures v.reply == OtherReply <==> voteId != Some("yes")
  {
    Section4View(opacity, promptOpacity, resultOpacity, !isSection5Visible, isSection5Visible,
      if voteId == Some("yes") then YesReply else OtherReply)
  }

  /** Exactly one of the two layers accepts pointer events at any time. */
  lemma ExactlyOneLayerInteractive(opacity: real, promptOpacity: real, resultOpacity: real, voteId: Option<string>, isSection5Visible: bool)
    ensures var v := Render(opacity, promptOpacity, resultOpacity, voteId, isSection5Visible);
      v.promptInteractive != v.resultInteractive
  {
  }

  /** The reply follows the button pressed: "예" gets the yes reply,
      "아니오" the other one, and no answer at all also the other one. */
  lemma ReplyFollowsButton(b: AnswerButton, opacity: real, promptOpacity: real, resultOpacity: real, isSection5Visible: bool)
    ensures Render(opacity, promptOpacity, resultOpacity, Some(ButtonVoteId(b)), isSection5Visible).reply ==
              (if b == YesButton then YesReply else OtherReply)
    ensures Render(opacity, promptOpacity, resultOpacity, None, isSection5Visible).reply == OtherReply
  {
  }
}
