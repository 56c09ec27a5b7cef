/** Presentation rules of a feed card's vote: which status the card is in,
    which options are highlighted as winners, which are clickable, and the
    caption under the options. */
module FeedCard {
  import opened Wrappers

  datatype VoteOption = VoteOption(id: string, text: string, percentage: Option<real>)

  datatype VoteStatus = Default | Voted | Ended

  /** An option's percentage, with a missing one read as 0. */
  function Pct(o: VoteOption): (p: real)
    ensures o.percentage.Some? ==> p == o.percentage.value
    ensures o.percentage.None? ==> p == 0.0
  {
    o.percentage.GetOr(0.0)
  }

  /** The card is `Ended` whenever voting is closed; while voting is open it
      is `Voted` when the viewer has a selection and `Default` otherwise. */
  function DeriveStatus(hasVoted: bool, isVoting: bool): (s: VoteStatus)
    ensures s == Ended <==> !isVoting
    ensures s == Voted <==> hasVoted && isVoting
    ensures s == Default <==> !hasVoted && isVoting
  {
    if hasVoted then (if isVoting then Voted else Ended)
    else (if isVoting then Default else Ended)
  }

  /** The largest percentage among the options (missing ones count as 0). */
  function MaxPercentage(opts: seq<VoteOption>): (m: real)
    requires |opts| > 0
    ensures forall i :: 0 <= i < |opts| ==> Pct(opts[i]) <= m
    ensures exists i :: 0 <= i < |opts| && Pct(opts[i]) == m
  {
    if |opts| == 1 then Pct(opts[0])
    else
      var rest := MaxPercentage(opts[1..]);
      assert forall i :: 1 <= i < |opts| ==> opts[i] == opts[1..][i - 1];
      if Pct(opts[0]) >= rest then Pct(opts[0]) else rest
  }

  /** How many options have exactly percentage `m`. */
  function WinnersCount(opts: seq<VoteOption>, m: real): (n: nat)
    ensures n <= |opts|
  {
    if |opts| == 0 then 0
    else (if Pct(opts[0]) == m then 1 else 0) + WinnersCount(opts[1..], m)
  }

  /** Some option has percentage `m` iff the count of such options is positive;
      two distinct options have it iff the count exceeds one. */
  lemma {:induction false} WinnersCountWitnesses(opts: seq<VoteOption>, m: real)
    ensures WinnersCount(opts, m) > 0 <==> exists i :: 0 <= i < |opts| && Pct(opts[i]) == m
    ensures WinnersCount(opts, m) > 1 <==>
      exists i, j :: 0 <= i < j < |opts| && Pct(opts[i]) == m && Pct(opts[j]) == m
  {
    if |opts| > 0 {
      var rest := opts[1..];
      WinnersCountWitnesses(rest, m);
      assert forall i :: 1 <= i < |opts| ==> opts[i] == rest[i - 1];
      if i, j :| 0 <= i < j < |opts| && Pct(opts[i]) == m && Pct(opts[j]) == m {
        if i > 0 {
          assert Pct(rest[i - 1]) == m && Pct(rest[j - 1]) == m;
        } else {
          assert Pct(rest[j - 1]) == m;
        }
      }
      if WinnersCount(opts, m) > 1 {
        if Pct(opts[0]) == m {
          var j :| 0 <= j < |rest| && Pct(rest[j]) == m;
          assert Pct(opts[0]) == m && Pct(opts[j + 1]) == m;
        } else {
          var i, j :| 0 <= i < j < |rest| && Pct(rest[i]) == m && Pct(rest[j]) == m;
          assert Pct(opts[i + 1]) == m && Pct(opts[j + 1]) == m;
        }
      }
      if i :| 0 <= i < |opts| && Pct(opts[i]) == m {
        if i > 0 {
          assert Pct(rest[i - 1]) == m;
        }
      }
    }
  }

  /** A tie: at least two options share the maximum, and it is above 0.
      With no options the source's maximum is minus infinity: never a tie. */
  function IsTie(opts: seq<VoteOption>): (tie: bool)
    ensures tie ==> |opts| >= 2
  {
    |opts| > 0 && WinnersCount(opts, MaxPercentage(opts)) > 1 && MaxPercentage(opts) > 0.0
  }

  /** An option wins when it holds the maximum and the maximum is above 0. */
  /** An option of the list wins iff it is positive and no option beats it. */
  function IsWinner(opts: seq<VoteOption>, o: VoteOption): (win: bool)
    requires |opts| > 0
    ensures win ==> 0.0 < Pct(o) && forall i :: 0 <= i < |opts| ==> Pct(opts[i]) <= Pct(o)
    ensures o in opts && 0.0 < Pct(o) && (forall i :: 0 <= i < |opts| ==> Pct(opts[i]) <= Pct(o)) ==> win
  {
    Pct(o) == MaxPercentage(opts) && MaxPercentage(opts) > 0.0
  }

  /** A tie is exactly two distinct options sharing a positive maximum. */
  lemma TieIffSharedPositiveMax(opts: seq<VoteOption>)
    requires |opts| > 0
    ensures IsTie(opts) <==>
      MaxPercentage(opts) > 0.0 &&
      exists i, j :: 0 <= i < j < |opts| && Pct(opts[i]) == MaxPercentage(opts) && Pct(opts[j]) == MaxPercentage(opts)
  {
    WinnersCountWitnesses(opts, MaxPercentage(opts));
  }

  /** When every percentage is 0 or missing there is no winner and no tie. */
  lemma AllZeroHasNoWinner(opts: seq<VoteOption>)
    requires |opts| > 0
    requires forall i :: 0 <= i < |opts| ==> Pct(opts[i]) == 0.0
    ensures MaxPercentage(opts) == 0.0
    ensures !IsTie(opts)
    ensures forall i :: 0 <= i < |opts| ==> !IsWinner(opts, opts[i])
  {
  }

  /** Whether an option is drawn dark: never before voting, the viewer's own
      choice while voting, and every winner (every option, on a tie) once
      ended. */
  function ShowDark(status: VoteStatus, isSelected: bool, isWinner: bool, isTie: bool): (dark: bool)
    ensures status == Default ==> !dark
    ensures status == Voted ==> (dark <==> isSelected)
    ensures status == Ended ==> (dark <==> isTie || isWinner)
  {
    if status == Default then false
    else if status == Ended then isTie || isWinner
    else isSelected
  }

  /** How one option is drawn. `barTarget` is the width, in percent, the
      fill bar animates to; `whiteClipRightInset` is the right inset of the
      white text layer drawn over a dark bar once the animation settles. */
  datatype OptionView = OptionView(
    id: string,
    text: string,
    isButton: bool,
    showDark: bool,
    barShown: bool,
    barTarget: real,
    percentText: Option<real>,
    showsMyIcon: bool,
    whiteClipRightInset: Option<real>)

  function RenderOption(option: VoteOption, status: VoteStatus, isSelected: bool, isWinner: bool, isTie: bool): (v: OptionView)
    ensures v.id == option.id && v.text == option.text
    ensures v.isButton <==> status == Default
    ensures v.barShown <==> status != Default
    ensures v.percentText.Some? <==> status != Default
    ensures v.percentText.Some? ==> v.percentText.value == Pct(option)
    ensures v.showsMyIcon <==> isSelected && status == Voted
    ensures v.whiteClipRightInset.Some? <==> status != Default && v.showDark
    ensures v.whiteClipRightInset.Some? ==> v.whiteClipRightInset.value + v.barTarget == 100.0
    ensures status == Default ==> v.barTarget == 0.0
    ensures status != Default ==> v.barTarget == Pct(option)
  {
    var percentage := Pct(option);
    var isDefault := status == Default;
    var dark := ShowDark(status, isSelected, isWinner, isTie);
    var target := if isDefault then 0.0 else percentage;
    OptionView(
      option.id, option.text, isDefault, dark, !isDefault, target,
      if isDefault then None else Some(percentage),
      isSelected && status == Voted,
      if !isDefault && dark then Some(100.0 - target) else None)
  }

  /** What a click on a drawn option does: the id handed to `onVote`, or
      nothing when the option is not a button. */
  function Click(v: OptionView): (voted: Option<string>)
    ensures voted.Some? <==> v.isButton
    ensures voted.Some? ==> voted.value == v.id
  {
    if v.isButton then Some(v.id) else None
  }

  datatype Caption = Caption(voteCount: real, statusLabel: string)

  datatype CardView = CardView(status: VoteStatus, options: seq<OptionView>, caption: Option<Caption>)

  /** The caption is shown only for a positive vote count; its label says
      whether voting is still open. */
  function RenderCaption(voteCount: Option<real>, isVoting: bool): (c: Option<Caption>)
    ensures c.Some? <==> voteCount.Some? && voteCount.value > 0.0
    ensures c.Some? ==> c.value.voteCount == voteCount.value
    ensures c.Some? ==> (c.value.statusLabel == "진행중" <==> isVoting)
    ensures c.Some? ==> (c.value.statusLabel == "최종결과" <==> !isVoting)
  {
    var statusLabel := if isVoting then "진행중" else "최종결과";
    if voteCount.Some? && voteCount.value > 0.0 then Some(Caption(voteCount.value, statusLabel)) else None
  }

  /** The vote part of a feed card. `isVoting` defaults to open when absent. */
  function RenderCard(voteOptions: seq<VoteOption>, voteCount: Option<real>, isVoting: Option<bool>, selectedVoteId: Option<string>): (v: CardView)
    ensures v.status == DeriveStatus(selectedVoteId.Some?, isVoting.GetOr(true))
    ensures |v.options| == |voteOptions|
    ensures v.caption == RenderCaption(voteCount, isVoting.GetOr(true))
    ensures forall i :: 0 <= i < |voteOptions| ==>
      v.options[i] == RenderOption(voteOptions[i], v.status, selectedVoteId == Some(voteOptions[i].id),
                                   IsWinner(voteOptions, voteOptions[i]), IsTie(voteOptions))
  {
    var open := isVoting.GetOr(true);
    var status := DeriveStatus(selectedVoteId.Some?, open);
    var views := if |voteOptions| == 0 then [] else
      var tie := IsTie(voteOptions);
      seq(|voteOptions|, i requires 0 <= i < |voteOptions| =>
        RenderOption(voteOptions[i], status, selectedVoteId == Some(voteOptions[i].id),
                     IsWinner(voteOptions, voteOptions[i]), tie));
    CardView(status, views, RenderCaption(voteCount, open))
  }

  /** The caption's label agrees with the card's status: "최종결과" exactly
      when the card is ended, "진행중" otherwise. */
  lemma CaptionAgreesWithStatus(voteOptions: seq<VoteOption>, voteCount: Option<real>, isVoting: Option<bool>, selectedVoteId: Option<string>)
    ensures var v := RenderCard(voteOptions, voteCount, isVoting, selectedVoteId);
      v.caption.Some? ==>
        && (v.caption.value.statusLabel == "최종결과" <==> v.status == Ended)
        && (v.caption.value.statusLabel == "진행중" <==> v.status != Ended)
  {
  }

  /** Before voting every option is a clickable, light button whose click
      votes for exactly that option; after voting or once ended no option is
      clickable. */
  lemma OnlyDefaultIsInteractive(voteOptions: seq<VoteOption>, voteCount: Option<real>, isVoting: Option<bool>, selectedVoteId: Option<string>)
    ensures var v := RenderCard(voteOptions, voteCount, isVoting, selectedVoteId);
      forall i :: 0 <= i < |v.options| ==>
        && (v.status == Default ==> Click(v.options[i]) == Some(voteOptions[i].id) && !v.options[i].showDark)
        && (v.status != Default ==> Click(v.options[i]) == None)
  {
  }

  /** While voting is open and the viewer has voted, exactly the viewer's
      option is dark and carries the "mine" icon. */
  lemma VotedHighlightsSelection(voteOptions: seq<VoteOption>, voteCount: Option<real>, selectedId: string)
    ensures var v := RenderCard(voteOptions, voteCount, Some(true), Some(selectedId));
      && v.status == Voted
      && forall i :: 0 <= i < |v.options| ==>
           (v.options[i].showDark <==> voteOptions[i].id == selectedId) &&
           (v.options[i].showsMyIcon <==> voteOptions[i].id == selectedId)
  {
  }

  /** Once voting has ended, a tie makes every option dark; otherwise the
      dark options are exactly the winners. No option shows the "mine" icon. */
  lemma EndedHighlightsWinners(voteOptions: seq<VoteOption>, voteCount: Option<real>, selectedVoteId: Option<string>)
    requires |voteOptions| > 0
    ensures var v := RenderCard(voteOptions, voteCount, Some(false), selectedVoteId);
      && v.status == Ended
      && (IsTie(voteOptions) ==> forall i :: 0 <= i < |v.options| ==> v.options[i].showDark)
      && (!IsTie(voteOptions) ==> forall i :: 0 <= i < |v.options| ==>
            (v.options[i].showDark <==> Pct(voteOptions[i]) == MaxPercentage(voteOptions) && MaxPercentage(voteOptions) > 0.0))
      && forall i :: 0 <= i < |v.options| ==> !v.options[i].showsMyIcon
  {
  }

  /** A missing percentage is displayed as 0 and counts as 0 for the bar. */
  lemma MissingPercentageReadsZero(o: VoteOption, status: VoteStatus, isSelected: bool, isWinner: bool, isTie: bool)
    requires o.percentage.None? && status != Default
    ensures RenderOption(o, status, isSelected, isWinner, isTie).percentText == Some(0.0)
    ensures RenderOption(o, status, isSelected, isWinner, isTie).barTarget == 0.0
  {
  }
}
