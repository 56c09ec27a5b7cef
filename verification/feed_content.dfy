/** How one feed item from the server becomes the props of a feed card:
    relative time, category label, image, vote percentages, the optimistic
    counts after a vote and the viewer's selection. */
module FeedContent {
  import opened Wrappers
  import opened Text
  import FeedCard

  // ---------------------------------------------------------------------
  // Relative time

  const MsPerMinute: int := 60000

  /** A coarse relative time: under a minute, whole minutes under an hour,
      whole hours under a day, whole days beyond. */
  datatype TimeAgo = JustNow | MinutesAgo(minutes: nat) | HoursAgo(hours: nat) | DaysAgo(days: nat)

  /** Whole minutes elapsed from `createdMs` to `nowMs`, rounded down; a
      creation time in the future counts as no time at all. */
  function ElapsedMinutes(createdMs: int, nowMs: int): (m: nat)
    ensures nowMs - createdMs < MsPerMinute ==> m == 0
    ensures nowMs >= createdMs ==> m * MsPerMinute <= nowMs - createdMs < (m + 1) * MsPerMinute
  {
    var diffMin := (nowMs - createdMs) / MsPerMinute;
    if diffMin < 0 then 0 else diffMin
  }

  /** Sorts a count of minutes into its bucket; hours and days are rounded
      down, each bucket covering exactly its half-open range of minutes. */
  function Bucket(minutes: nat): (t: TimeAgo)
    ensures t == JustNow <==> minutes < 1
    ensures t.MinutesAgo? <==> 1 <= minutes < 60
    ensures t.HoursAgo? <==> 60 <= minutes < 1440
    ensures t.DaysAgo? <==> 1440 <= minutes
    ensures t.MinutesAgo? ==> t.minutes == minutes
    ensures t.HoursAgo? ==> 1 <= t.hours < 24 && t.hours * 60 <= minutes < (t.hours + 1) * 60
    ensures t.DaysAgo? ==> 1 <= t.days && t.days * 1440 <= minutes < (t.days + 1) * 1440
  {
    if minutes < 1 then JustNow
    else if minutes < 60 then MinutesAgo(minutes)
    else
      var hours := minutes / 60;
      if hours < 24 then HoursAgo(hours)
      else
        var days := hours / 24;
        assert days * 1440 <= minutes < (days + 1) * 1440 by {
          assert hours * 60 <= minutes < hours * 60 + 60;
          assert days * 24 <= hours < days * 24 + 24;
        }
        DaysAgo(days)
  }

  /** The Korean text shown for a relative time. */
  function TimeAgoLabel(t: TimeAgo): (r: string)
    ensures |r| >= 4
    ensures t.JustNow? <==> !IsDigit(r[0])
  {
    match t
    case JustNow => "방금 전"
    case MinutesAgo(n) => NatToString(n) + "분 전"
    case HoursAgo(n) => NatToString(n) + "시간 전"
    case DaysAgo(n) => NatToString(n) + "일 전"
  }

  /** The fixed text after a label's number (the whole label for "just now"). */
  function UnitText(t: TimeAgo): string {
    match t
    case JustNow => "방금 전"
    case MinutesAgo(_) => "분 전"
    case HoursAgo(_) => "시간 전"
    case DaysAgo(_) => "일 전"
  }

  /** The number a label shows; none for "just now". */
  function CountText(t: TimeAgo): string {
    match t
    case JustNow => ""
    case MinutesAgo(n) => NatToString(n)
    case HoursAgo(n) => NatToString(n)
    case DaysAgo(n) => NatToString(n)
  }

  /** A label is its number followed by its unit text. */
  lemma LabelSplit(t: TimeAgo)
    ensures TimeAgoLabel(t) == CountText(t) + UnitText(t)
  {
  }

  /** The third character from the end of `p + u` lies in `u`. */
  lemma ThirdFromEnd(p: string, u: string)
    requires |u| >= 3
    ensures (p + u)[|p + u| - 3] == u[|u| - 3]
  {
  }

  /** The third character from the end of the unit text tells the unit. */
  lemma UnitMarkDeterminesKind(a: TimeAgo, b: TimeAgo)
    requires UnitText(a)[|UnitText(a)| - 3] == UnitText(b)[|UnitText(b)| - 3]
    ensures UnitText(a) == UnitText(b)
    ensures a.JustNow? == b.JustNow? && a.MinutesAgo? == b.MinutesAgo? && a.HoursAgo? == b.HoursAgo?
  {
  }

  /** Different relative times never read the same: the label determines
      both the unit and the number. */
  lemma TimeAgoLabelInjective(a: TimeAgo, b: TimeAgo)
    requires TimeAgoLabel(a) == TimeAgoLabel(b)
    ensures a == b
  {
    var ca, ua, cb, ub := CountText(a), UnitText(a), CountText(b), UnitText(b);
    LabelSplit(a);
    LabelSplit(b);
    assert ca + ua == cb + ub;
    ThirdFromEnd(ca, ua);
    ThirdFromEnd(cb, ub);
    UnitMarkDeterminesKind(a, b);
    PrefixCancel(ca, cb, ua);
    match a
    case JustNow =>
    case MinutesAgo(n) => NatToStringInjective(n, b.minutes);
    case HoursAgo(n) => NatToStringInjective(n, b.hours);
    case DaysAgo(n) => NatToStringInjective(n, b.days);
  }

  /** Equal strings with the same ending have the same beginning. */
  lemma PrefixCancel(x: string, y: string, u: string)
    requires x + u == y + u
    ensures x == y
  {
    assert x == (x + u)[..|x|];
    assert y == (y + u)[..|y|];
  }

  /** The relative time of `createdAt`, or nothing when it is absent, empty
      or not a date. Date parsing and the clock are parameters. */
  function FormatTimeAgo(createdAt: Option<string>, parse: string -> Option<int>, nowMs: int): (r: Option<string>)
    ensures !Truthy(createdAt) ==> r.None?
    ensures Truthy(createdAt) && parse(createdAt.value).None? ==> r.None?
    ensures Truthy(createdAt) && parse(createdAt.value).Some? ==>
              r == Some(TimeAgoLabel(Bucket(ElapsedMinutes(parse(createdAt.value).value, nowMs))))
  {
    if !Truthy(createdAt) then None
    else match parse(createdAt.value)
      case None => None
      case Some(createdMs) => Some(TimeAgoLabel(Bucket(ElapsedMinutes(createdMs, nowMs))))
  }

  /** A creation time less than a minute ago, or in the future, reads
      "just now". */
  lemma RecentOrFutureIsJustNow(createdAt: string, parse: string -> Option<int>, nowMs: int)
    requires |createdAt| > 0 && parse(createdAt).Some? && nowMs - parse(createdAt).value < MsPerMinute
    ensures FormatTimeAgo(Some(createdAt), parse, nowMs) == Some("방금 전")
  {
  }

  /** Worked example: 90 minutes read "1시간 전", 3 days and 5 hours "3일 전". */
  lemma TimeAgoExamples()
    ensures Bucket(ElapsedMinutes(0, 90 * MsPerMinute)) == HoursAgo(1)
    ensures Bucket(ElapsedMinutes(0, (3 * 1440 + 300) * MsPerMinute)) == DaysAgo(3)
    ensures Bucket(ElapsedMinutes(0, 59 * MsPerMinute + 59999)) == MinutesAgo(59)
  {
  }

  // ---------------------------------------------------------------------
  // Category

  /** The nine category codes the server sends and their display labels. */
  const CategoryLabels: map<string, string> := map[
    "LUXURY" := "명품",
    "FASHION" := "패션",
    "BEAUTY" := "뷰티",
    "FOOD" := "음식",
    "ELECTRONICS" := "전자기기",
    "TRAVEL" := "여행",
    "HEALTH" := "건강",
    "BOOK" := "도서",
    "ETC" := "기타"]

  /** The display label of a category: nothing for an absent or empty one,
      the fixed label of a known code, any other code unchanged. */
  function MapCategory(category: Option<string>): (r: Option<string>)
    ensures !Truthy(category) ==> r.None?
    ensures Truthy(category) && category.value in CategoryLabels ==> r == Some(CategoryLabels[category.value])
    ensures Truthy(category) && category.value !in CategoryLabels ==> r == category
  {
    if !Truthy(category) then None
    else if category.value in CategoryLabels then Some(CategoryLabels[category.value])
    else category
  }

  /** A known code is always replaced by a label different from every code,
      so a code shows through unchanged exactly when it is unknown. */
  lemma CategoryShownVerbatimIffUnknown(code: string)
    requires |code| > 0
    ensures MapCategory(Some(code)) == Some(code) <==> code !in CategoryLabels
    ensures forall c :: c in CategoryLabels ==> CategoryLabels[c] !in CategoryLabels
  {
  }

  /** Distinct known codes get distinct labels. */
  lemma CategoryLabelsInjective(a: string, b: string)
    requires a in CategoryLabels && b in CategoryLabels && a != b
    ensures MapCategory(Some(a)) != MapCategory(Some(b))
  {
  }

  /** A value read from a plain JavaScript object literal by key: an own
      property, a member inherited from `Object.prototype`, or nothing. */
  datatype PropertyRead = OwnProperty(text: string) | Inherited(member: string) | Missing

  /** Names every plain object inherits from `Object.prototype`. */
  const ObjectPrototypeMembers: set<string> := {
    "constructor", "hasOwnProperty", "isPrototypeOf", "propertyIsEnumerable",
    "toLocaleString", "toString", "valueOf", "__proto__",
    "__defineGetter__", "__defineSetter__", "__lookupGetter__", "__lookupSetter__"}

  /** A property read on a plain object: its own key first, then the
      prototype's members; `Missing` is `undefined`. */
  function ReadProperty(own: map<string, string>, key: string): (r: PropertyRead)
    ensures r.OwnProperty? <==> key in own
    ensures r.OwnProperty? ==> r.text == own[key]
    ensures r.Inherited? <==> key !in own && key in ObjectPrototypeMembers
    ensures r.Missing? <==> key !in own && key !in ObjectPrototypeMembers
  {
    if key in own then OwnProperty(own[key])
    else if key in ObjectPrototypeMembers then Inherited(key)
    else Missing
  }

  /** What `categoryMap[category] ?? category` yields in the source: the
      lookup walks the prototype chain, and `??` only replaces
      `undefined`, so an inherited member (a function, or the prototype
      object itself) comes back instead of a string. */
  function MapCategoryAsWritten(category: Option<string>): (r: Option<PropertyRead>)
    ensures !Truthy(category) ==> r.None?
    ensures Truthy(category) ==> r.Some? && !r.value.Missing?
  {
    if !Truthy(category) then None
    else match ReadProperty(CategoryLabels, category.value)
      case Missing => Some(OwnProperty(category.value))
      case other => Some(other)
  }

  /** The discrepancy: the category code "constructor" yields the inherited
      `Object` constructor rather than any text. */
  lemma InheritedCategoryIsNotText()
    ensures MapCategoryAsWritten(Some("constructor")) == Some(Inherited("constructor"))
    ensures MapCategory(Some("constructor")) == Some("constructor")
  {
  }

  /** Away from the inherited names the source agrees with `MapCategory`. */
  lemma AsWrittenAgreesOffPrototype(category: Option<string>)
    requires category.Some? ==> category.value !in ObjectPrototypeMembers
    ensures MapCategoryAsWritten(category).None? <==> MapCategory(category).None?
    ensures MapCategory(category).Some? ==> MapCategoryAsWritten(category) == Some(OwnProperty(MapCategory(category).value))
  {
  }

  // ---------------------------------------------------------------------
  // Image

  /** The image shown on the card: a non-empty `viewUrl` wins; otherwise the
      storage key, but only when it is already an http(s) URL. */
  function ToImageUrl(viewUrl: Option<string>, s3ObjectKey: Option<string>): (r: Option<string>)
    ensures Truthy(viewUrl) ==> r == viewUrl
    ensures !Truthy(viewUrl) ==> (r.Some? <==> s3ObjectKey.Some? && ("http://" <= s3ObjectKey.value || "https://" <= s3ObjectKey.value))
    ensures !Truthy(viewUrl) && r.Some? ==> r == s3ObjectKey
    ensures r.Some? ==> |r.value| > 0
  {
    if Truthy(viewUrl) then viewUrl
    else if !Truthy(s3ObjectKey) then None
    else if "http://" <= s3ObjectKey.value || "https://" <= s3ObjectKey.value then s3ObjectKey
    else None
  }

  /** The card never points at a bare storage key: any image it shows is
      the non-empty `viewUrl` or a web URL. */
  lemma ImageIsViewUrlOrWebUrl(viewUrl: Option<string>, s3ObjectKey: Option<string>)
    ensures var r := ToImageUrl(viewUrl, s3ObjectKey);
      r.Some? ==> (Truthy(viewUrl) && r == viewUrl) || "http://" <= r.value || "https://" <= r.value
    ensures s3ObjectKey.Some? && !("http://" <= s3ObjectKey.value) && !("https://" <= s3ObjectKey.value) ==>
      ToImageUrl(viewUrl, s3ObjectKey) != s3ObjectKey || (Truthy(viewUrl) && viewUrl == s3ObjectKey)
  {
  }

  // ---------------------------------------------------------------------
  // Percentages

  /** `Math.round(p / q)` for exact rationals: the nearest integer, halves
      rounded up. */
  function RoundDiv(p: int, q: int): (r: int)
    requires q > 0
    ensures 2 * q * r <= 2 * p + q < 2 * q * (r + 1)
  {
    var r := (2 * p + q) / (2 * q);
    assert (2 * p + q) == r * (2 * q) + (2 * p + q) % (2 * q);
    r
  }

  /** The share of `count` in `total`, in whole percent; 0 when nobody voted. */
  function Percent(count: int, total: int): (r: int)
    ensures total <= 0 ==> r == 0
    ensures total > 0 ==> 2 * total * r <= 200 * count + total < 2 * total * (r + 1)
  {
    if total > 0 then RoundDiv(100 * count, total) else 0
  }

  lemma MulLeftCancelLt(t: int, x: int, y: int)
    requires t > 0 && t * x < t * y
    ensures x < y
  {
  }

  lemma MulDistributes(k: int, x: int, y: int)
    ensures k * (x + y) == k * x + k * y
  {
  }

  /** A share of a non-negative total lies in [0, 100]. */
  lemma PercentInRange(count: int, total: int)
    requires 0 <= count <= total
    ensures 0 <= Percent(count, total) <= 100
  {
    if total > 0 {
      var r := Percent(count, total);
      assert 2 * total * r <= 201 * total;
      MulLeftCancelLt(2 * total, r, 101);
      assert 2 * total * (r + 1) > 0;
      MulLeftCancelLt(2 * total, 0, r + 1);
    }
  }

  /** The two displayed shares add up to 100 or, when both are exact halves
      rounded up, to 101; never less than 100. */
  lemma PercentagesSumTo100Or101(yes: int, no: int)
    requires yes >= 0 && no >= 0 && yes + no > 0
    ensures 100 <= Percent(yes, yes + no) + Percent(no, yes + no) <= 101
  {
    var t := yes + no;
    var a, b := Percent(yes, t), Percent(no, t);
    MulDistributes(2 * t, a, b);
    assert 2 * t * (a + b) <= 2 * t * 101;
    MulLeftCancelLt(2 * t, a + b, 102);
    MulDistributes(2 * t, a + 1, b + 1);
    assert 2 * t * 101 < 2 * t * (a + b + 2);
    MulLeftCancelLt(2 * t, 101, a + b + 2);
  }

  /** Worked example: 1 yes and 7 no round to 13% and 88%. */
  lemma PercentExample()
    ensures Percent(1, 8) == 13 && Percent(7, 8) == 88
  {
  }

  // ---------------------------------------------------------------------
  // Voting

  datatype VoteChoice = YES | NO

  /** The request's choice: "yes" is YES, every other option id is NO. */
  function ChoiceOf(optionId: string): (c: VoteChoice)
    ensures c == YES <==> optionId == "yes"
  {
    if optionId == "yes" then YES else NO
  }

  /** The counts a vote response may carry. */
  datatype VoteResponse = VoteResponse(yesCount: Option<int>, noCount: Option<int>)

  /** The locally remembered outcome of the viewer's vote on one feed. */
  datatype VoteState = VoteState(selectedId: string, yesCount: int, noCount: int)

  /** The local state after a successful vote: server counts when the
      response has them, otherwise the feed's original count for the chosen
      side plus one. */
  function AfterVote(optionId: string, originalYes: int, originalNo: int, response: Option<VoteResponse>): (s: VoteState)
    ensures s.selectedId == optionId
    ensures response.Some? && response.value.yesCount.Some? ==> s.yesCount == response.value.yesCount.value
    ensures response.Some? && response.value.noCount.Some? ==> s.noCount == response.value.noCount.value
    ensures (response.None? || response.value.yesCount.None?) ==> s.yesCount == originalYes + (if optionId == "yes" then 1 else 0)
    ensures (response.None? || response.value.noCount.None?) ==> s.noCount == originalNo + (if optionId == "no" then 1 else 0)
  {
    var yes := if response.Some? then response.value.yesCount else None;
    var no := if response.Some? then response.value.noCount else None;
    VoteState(
      optionId,
      yes.GetOr(originalYes + (if optionId == "yes" then 1 else 0)),
      no.GetOr(originalNo + (if optionId == "no" then 1 else 0)))
  }

  /** With no counts in the response, the side the request chose gains one
      vote and the other side keeps its original count. */
  lemma OptimisticCountFollowsChoice(optionId: string, originalYes: int, originalNo: int)
    requires optionId == "yes" || optionId == "no"
    ensures var s := AfterVote(optionId, originalYes, originalNo, None);
      && (ChoiceOf(optionId) == YES ==> s.yesCount == originalYes + 1 && s.noCount == originalNo)
      && (ChoiceOf(optionId) == NO ==> s.noCount == originalNo + 1 && s.yesCount == originalYes)
      && s.yesCount + s.noCount == originalYes + originalNo + 1
  {
  }

  /** Recording a successful vote: only the voted feed's entry changes. */
  function RecordVote(votes: map<string, VoteState>, key: string, optionId: string, originalYes: int, originalNo: int, response: Option<VoteResponse>): (r: map<string, VoteState>)
    ensures r.Keys == votes.Keys + {key}
    ensures r[key].selectedId == optionId
    ensures forall k :: k in votes && k != key ==> r[k] == votes[k]
  {
    votes[key := AfterVote(optionId, originalYes, originalNo, response)]
  }

  /** The viewer's selection on a card: the local vote when there is one,
      otherwise the server's record lower-cased, and only when the server
      says the viewer has voted. */
  function SelectedVoteId(local: Option<VoteState>, hasVoted: Option<bool>, myVoteChoice: Option<string>): (r: Option<string>)
    ensures local.Some? ==> r == Some(local.value.selectedId)
    ensures local.None? ==> (r.Some? <==> hasVoted == Some(true) && Truthy(myVoteChoice))
    ensures local.None? && r.Some? ==> r.value == Lower(myVoteChoice.value)
  {
    if local.Some? then Some(local.value.selectedId)
    else if hasVoted == Some(true) && Truthy(myVoteChoice) then Some(Lower(myVoteChoice.value))
    else None
  }

  /** The server's "YES"/"NO" become the card's option ids "yes"/"no". */
  lemma ServerChoiceMatchesOptionIds()
    ensures SelectedVoteId(None, Some(true), Some("YES")) == Some("yes")
    ensures SelectedVoteId(None, Some(true), Some("NO")) == Some("no")
    ensures SelectedVoteId(None, Some(false), Some("YES")) == None
  {
    assert Lower("YES") == "yes" by {
      assert Lower("YES")[0] == 'y' && Lower("YES")[1] == 'e' && Lower("YES")[2] == 's';
    }
    assert Lower("NO") == "no" by {
      assert Lower("NO")[0] == 'n' && Lower("NO")[1] == 'o';
    }
  }

  /** Voting is open unless the feed is explicitly closed. */
  function IsVotingStatus(feedStatus: Option<string>): (open: bool)
    ensures open <==> feedStatus != Some("CLOSED")
  {
    !(feedStatus.Some? && feedStatus.value == "CLOSED")
  }

  // ---------------------------------------------------------------------
  // Feed item to card

  datatype Author = Author(nickname: Option<string>, profileImage: Option<string>)

  datatype Feed = Feed(
    feedId: Option<int>,
    author: Option<Author>,
    category: Option<string>,
    createdAt: Option<string>,
    content: Option<string>,
    viewUrl: Option<string>,
    s3ObjectKey: Option<string>,
    price: Option<real>,
    yesCount: Option<int>,
    noCount: Option<int>,
    hasVoted: Option<bool>,
    myVoteChoice: Option<string>,
    feedStatus: Option<string>)

  datatype CardProps = CardProps(
    key: string,
    username: Option<string>,
    profileImage: Option<string>,
    category: Option<string>,
    timeAgo: Option<string>,
    content: Option<string>,
    image: Option<string>,
    price: Option<real>,
    voteOptions: seq<FeedCard.VoteOption>,
    voteCount: Option<real>,
    isVoting: Option<bool>,
    selectedVoteId: Option<string>)

  /** The card's key and vote key: the feed id, or the list index when the
      feed has none, in decimal. */
  function CardKey(feed: Feed, index: nat): (key: string)
    ensures ParseDecimalInt(key) == Some(feed.feedId.GetOr(index))
  {
    ParseRenderedInt(feed.feedId.GetOr(index));
    IntToString(feed.feedId.GetOr(index))
  }

  /** The counts the card shows: the local ones after a vote, else the
      feed's, else 0. */
  function DisplayedCounts(feed: Feed, local: Option<VoteState>): (yesNo: (int, int))
    ensures local.Some? ==> yesNo == (local.value.yesCount, local.value.noCount)
    ensures local.None? ==> yesNo == (feed.yesCount.GetOr(0), feed.noCount.GetOr(0))
  {
    if local.Some? then (local.value.yesCount, local.value.noCount)
    else (feed.yesCount.GetOr(0), feed.noCount.GetOr(0))
  }

  /** The props of the card for the feed at `index`, given the local votes
      keyed by card key. */
  function ToCardProps(feed: Feed, index: nat, votes: map<string, VoteState>, parse: string -> Option<int>, nowMs: int): (p: CardProps)
    ensures p.key == CardKey(feed, index)
    ensures feed.author.None? ==> p.username.None? && p.profileImage.None?
    ensures p.category == MapCategory(feed.category) && p.image == ToImageUrl(feed.viewUrl, feed.s3ObjectKey)
    ensures p.timeAgo == FormatTimeAgo(feed.createdAt, parse, nowMs)
    ensures p.content == feed.content && p.price == feed.price
    ensures p.isVoting == Some(feed.feedStatus != Some("CLOSED"))
    ensures p.key in votes ==>
              p.voteCount == Some((votes[p.key].yesCount + votes[p.key].noCount) as real) &&
              p.selectedVoteId == Some(votes[p.key].selectedId)
    ensures p.key !in votes ==>
              p.voteCount == Some((feed.yesCount.GetOr(0) + feed.noCount.GetOr(0)) as real) &&
              (p.selectedVoteId.Some? <==> feed.hasVoted == Some(true) && Truthy(feed.myVoteChoice))
  {
    var key := CardKey(feed, index);
    var local := if key in votes then Some(votes[key]) else None;
    var counts := DisplayedCounts(feed, local);
    var yes, no := counts.0, counts.1;
    var total := yes + no;
    CardProps(
      key,
      if feed.author.Some? then feed.author.value.nickname else None,
      if feed.author.Some? then feed.author.value.profileImage else None,
      MapCategory(feed.category),
      FormatTimeAgo(feed.createdAt, parse, nowMs),
      feed.content,
      ToImageUrl(feed.viewUrl, feed.s3ObjectKey),
      feed.price,
      [FeedCard.VoteOption("yes", "사! 가즈아!", Some(Percent(yes, total) as real)),
       FeedCard.VoteOption("no", "애매하긴 해..", Some(Percent(no, total) as real))],
      Some(total as real),
      Some(IsVotingStatus(feed.feedStatus)),
      SelectedVoteId(local, feed.hasVoted, feed.myVoteChoice))
  }

  /** Every card has the options "yes" then "no", each with a percentage;
      with non-negative counts both lie in [0, 100], are 0 when nobody has
      voted, and otherwise add up to 100 or 101. The vote count is the sum
      of the displayed counts. */
  lemma CardVoteOptionsShape(feed: Feed, index: nat, votes: map<string, VoteState>, parse: string -> Option<int>, nowMs: int)
    ensures var p := ToCardProps(feed, index, votes, parse, nowMs);
      var key := CardKey(feed, index);
      var (yes, no) := DisplayedCounts(feed, if key in votes then Some(votes[key]) else None);
      && |p.voteOptions| == 2
      && p.voteOptions[0].id == "yes" && p.voteOptions[1].id == "no"
      && p.voteOptions[0].percentage.Some? && p.voteOptions[1].percentage.Some?
      && p.voteCount == Some((yes + no) as real)
      && (yes + no == 0 ==> p.voteOptions[0].percentage == Some(0.0) && p.voteOptions[1].percentage == Some(0.0))
      && (yes >= 0 && no >= 0 ==>
            0.0 <= p.voteOptions[0].percentage.value <= 100.0 && 0.0 <= p.voteOptions[1].percentage.value <= 100.0)
      && (yes >= 0 && no >= 0 && yes + no > 0 ==>
            100.0 <= p.voteOptions[0].percentage.value + p.voteOptions[1].percentage.value <= 101.0)
  {
    var key := CardKey(feed, index);
    var (yes, no) := DisplayedCounts(feed, if key in votes then Some(votes[key]) else None);
    var p := ToCardProps(feed, index, votes, parse, nowMs);
    assert p.voteOptions == [FeedCard.VoteOption("yes", "사! 가즈아!", Some(Percent(yes, yes + no) as real)),
                             FeedCard.VoteOption("no", "애매하긴 해..", Some(Percent(no, yes + no) as real))];
    if yes >= 0 && no >= 0 {
      PercentInRange(yes, yes + no);
      PercentInRange(no, yes + no);
      if yes + no > 0 {
        PercentagesSumTo100Or101(yes, no);
      }
    }
  }

  /** A vote request: the numeric feed id (None when the key is not a
      number) and the choice. */
  datatype VoteRequest = VoteRequest(feedId: Option<int>, choice: VoteChoice)

  /** `Number(key)` on a decimal integer; other strings are not numbers here. */
  function ParseDecimalInt(s: string): (r: Option<int>)
    ensures |s| == 0 ==> r.None?
    ensures |s| > 0 && (forall i :: 0 <= i < |s| ==> IsDigit(s[i])) ==> r == Some(DecimalValue(s))
    ensures r.Some? && r.value < 0 ==> s[0] == '-'
    ensures (exists i :: 0 <= i < |s| && !IsDigit(s[i]) && s[i] != '-') ==> r.None?
  {
    if |s| > 1 && s[0] == '-' && forall i :: 1 <= i < |s| ==> IsDigit(s[i]) then Some(-(DecimalValue(s[1..]) as int))
    else if |s| > 0 && forall i :: 0 <= i < |s| ==> IsDigit(s[i]) then Some(DecimalValue(s))
    else None
  }

  lemma ParseEveryRenderedInt()
    ensures forall n :: ParseDecimalInt(IntToString(n)) == Some(n)
  {
    forall n {
      ParseRenderedInt(n);
    }
  }

  /** Reading a rendered integer back gives the integer. */
  lemma ParseRenderedInt(n: int)
    ensures ParseDecimalInt(IntToString(n)) == Some(n)
  {
    if n >= 0 {
      DecimalRoundTrip(n);
    } else {
      var s := IntToString(n);
      assert s[1..] == NatToString(-n);
      DecimalRoundTrip(-n);
    }
  }

  /** The request `handleVote` sends for a card key and a clicked option. */
  function VoteRequestFor(key: string, optionId: string): (req: VoteRequest)
    ensures req.choice == YES <==> optionId == "yes"
    ensures forall n :: key == IntToString(n) ==> req.feedId == Some(n)
  {
    ParseEveryRenderedInt();
    VoteRequest(ParseDecimalInt(key), ChoiceOf(optionId))
  }

  /** Clicking an option of a card sends the vote for that card's feed (its
      id, or its index when it has none); once the vote succeeds, the card
      shows that option as the viewer's selection and, while voting is open,
      switches to the voted status. */
  lemma VoteRoundTrip(feed: Feed, index: nat, votes: map<string, VoteState>, parse: string -> Option<int>, nowMs: int,
                      optionId: string, response: Option<VoteResponse>)
    ensures VoteRequestFor(CardKey(feed, index), optionId).feedId == Some(feed.feedId.GetOr(index))
    ensures var key := CardKey(feed, index);
      var votes' := RecordVote(votes, key, optionId, feed.yesCount.GetOr(0), feed.noCount.GetOr(0), response);
      var p := ToCardProps(feed, index, votes', parse, nowMs);
      && p.selectedVoteId == Some(optionId)
      && FeedCard.RenderCard(p.voteOptions, p.voteCount, p.isVoting, p.selectedVoteId).status ==
           (if feed.feedStatus == Some("CLOSED") then FeedCard.Ended else FeedCard.Voted)
  {
  }
}
