/** The `/app` route: which store a visitor is sent to, judged from the
    user-agent string. */
module AppTarget {
  import opened Text

  datatype StoreTarget = GooglePlay | AppStore | Desktop

  /** The text the page shows for each target: the two stores as
      "<store>로 이동", anything else as "desktop!!!". */
  function TargetLabel(t: StoreTarget): (text: string)
    ensures t != Desktop ==> |text| > 4 && text[|text| - 4..] == "로 이동"
    ensures t == Desktop ==> text == "desktop!!!"
  {
    match t
    case GooglePlay => "Google Play로 이동"
    case AppStore => "App Store로 이동"
    case Desktop => "desktop!!!"
  }

  /** The user agent mentions Android, in any letter case. */
  function MentionsAndroid(ua: string): (r: bool)
    ensures r <==> exists i :: OccursIgnoringCaseAt(ua, "android", i)
  {
    LowerTokens();
    IncludesLowerIff(ua, "android");
    Includes(Lower(ua), "android")
  }

  /** The user agent mentions an iPhone, iPad or iPod, in any letter case. */
  function MentionsAppleDevice(ua: string): (r: bool)
    ensures r <==> exists i :: OccursIgnoringCaseAt(ua, "iphone", i) || OccursIgnoringCaseAt(ua, "ipad", i) || OccursIgnoringCaseAt(ua, "ipod", i)
  {
    LowerTokens();
    IncludesLowerIff(ua, "iphone");
    IncludesLowerIff(ua, "ipad");
    IncludesLowerIff(ua, "ipod");
    Includes(Lower(ua), "iphone") || Includes(Lower(ua), "ipad") || Includes(Lower(ua), "ipod")
  }

  /** The searched tokens are already lower-case. */
  lemma LowerTokens()
    ensures Lower("android") == "android"
    ensures Lower("iphone") == "iphone" && Lower("ipad") == "ipad" && Lower("ipod") == "ipod"
  {
    assert Lower("android")[0] == 'a';
  }

  /** The target for a user agent, ignoring case: Android first, then an
      Apple handheld, otherwise desktop. */
  function TargetFromUserAgent(userAgent: string): (t: StoreTarget)
    ensures t == GooglePlay <==> MentionsAndroid(userAgent)
    ensures t == AppStore <==> !MentionsAndroid(userAgent) && MentionsAppleDevice(userAgent)
    ensures t == Desktop <==> !MentionsAndroid(userAgent) && !MentionsAppleDevice(userAgent)
  {
    var ua := Lower(userAgent);
    if Includes(ua, "android") then GooglePlay
    else if Includes(ua, "iphone") || Includes(ua, "ipad") || Includes(ua, "ipod") then AppStore
    else Desktop
  }

  /** Different targets show different texts. */
  lemma TargetLabelsDistinct(a: StoreTarget, b: StoreTarget)
    requires a != b
    ensures TargetLabel(a) != TargetLabel(b)
  {
  }

  /** User agents that differ only in ASCII case get the same target. */
  lemma CaseDoesNotMatter(a: string, b: string)
    requires SameIgnoringCase(a, b)
    ensures TargetFromUserAgent(a) == TargetFromUserAgent(b)
  {
    assert Lower(a) == Lower(b);
  }

  /** A token found in the user agent is still found after anything is
      appended, so the target can only move towards Android. */
  lemma AndroidWinsOverApple(ua: string, suffix: string)
    requires MentionsAndroid(ua)
    ensures TargetFromUserAgent(ua + suffix) == GooglePlay
  {
    LowerAppend(ua, suffix);
    IncludesExtend(Lower(ua), Lower(suffix), "android");
  }

  /** Worked example: an upper-case iPad agent that also names Android is
      sent to Google Play; a bare "iPhone" to the App Store. */
  lemma TargetExamples()
    ensures TargetFromUserAgent("ANDROID on iPad") == GooglePlay
    ensures TargetFromUserAgent("iPhone") == AppStore
  {
    var a := Lower("ANDROID on iPad");
    assert a[..7] == "android";
    assert OccursAt(a, "android", 0);
    var b := Lower("iPhone");
    assert b == "iphone";
    assert OccursAt(b, "iphone", 0);
  }
}
