/**
 * Device detection from the browser's user-agent string. Each test is a
 * regular-expression search for one of a few keywords anywhere in the
 * string; the `/i` tests compare in ASCII case-folded form (a regular
 * expression without the `u` flag never folds a non-ASCII character onto an
 * ASCII one, so for these ASCII keywords ASCII folding is exact).
 */
module Device {
  import opened Text

  const MobileKeywords: seq<string> :=
    ["Android", "webOS", "iPhone", "iPad", "iPod", "BlackBerry", "IEMobile", "Opera Mini"]
  const IosKeywords: seq<string> := ["iPad", "iPhone", "iPod"]
  const AndroidKeyword := "Android"
  const WeChatKeyword := "MicroMessenger"

  /** Some keyword occurs in `ua`, letter case significant. */
  predicate MatchesAny(ua: string, keywords: seq<string>) {
    exists j :: 0 <= j < |keywords| && Contains(ua, keywords[j])
  }

  /** Some keyword occurs in `ua`, ignoring ASCII letter case. */
  predicate MatchesAnyIgnoringCase(ua: string, keywords: seq<string>) {
    exists j :: 0 <= j < |keywords| && Contains(Lower(ua), Lower(keywords[j]))
  }

  /** `isMobile()`: a keyword spelled exactly as listed is certainly found. */
  predicate IsMobile(ua: string)
    ensures MatchesAny(ua, MobileKeywords) ==> IsMobile(ua)
  {
    ExactHitIsCaseInsensitiveHit(ua, MobileKeywords);
    MatchesAnyIgnoringCase(ua, MobileKeywords)
  }

  /** `isIOS()`: every iOS user agent also counts as mobile. */
  predicate IsIOS(ua: string)
    ensures IsIOS(ua) ==> IsMobile(ua)
  {
    IosKeywordsAreMobile(ua);
    MatchesAny(ua, IosKeywords)
  }

  /** `isAndroid()`: every Android user agent also counts as mobile. */
  predicate IsAndroid(ua: string)
    ensures IsAndroid(ua) ==> IsMobile(ua)
  {
    AndroidKeywordIsMobile(ua);
    Contains(ua, AndroidKeyword)
  }

  /** `isWeChat()`: the keyword spelled exactly as written is certainly found. */
  predicate IsWeChat(ua: string)
    ensures Contains(ua, WeChatKeyword) ==> IsWeChat(ua)
  {
    OccurrenceSurvivesLowering(ua, WeChatKeyword);
    Contains(Lower(ua), Lower(WeChatKeyword))
  }

  /** A case-sensitive hit on some keyword is also a case-insensitive hit. */
  lemma ExactHitIsCaseInsensitiveHit(ua: string, keywords: seq<string>)
    ensures MatchesAny(ua, keywords) ==> MatchesAnyIgnoringCase(ua, keywords)
  {
    if MatchesAny(ua, keywords) {
      var j :| 0 <= j < |keywords| && Contains(ua, keywords[j]);
      OccurrenceSurvivesLowering(ua, keywords[j]);
    }
  }

  /** A case-sensitive occurrence is also a case-insensitive one. */
  lemma OccurrenceSurvivesLowering(s: string, k: string)
    ensures Contains(s, k) ==> Contains(Lower(s), Lower(k))
  {
    if Contains(s, k) {
      var i: nat :| i <= |s| && OccursAt(s, k, i);
      forall j | 0 <= j < |k|
        ensures Lower(s)[i..i + |k|][j] == Lower(k)[j]
      {
        assert s[i + j] == s[i..i + |k|][j];
      }
      assert Lower(s)[i..i + |k|] == Lower(k);
      ContainsAt(Lower(s), Lower(k), i);
    }
  }

  lemma LowerIdempotent(s: string)
    ensures Lower(Lower(s)) == Lower(s)
  {
  }

  /** `iPhone|iPad|iPod` are among the mobile alternatives. */
  lemma IosKeywordsAreMobile(ua: string)
    ensures MatchesAny(ua, IosKeywords) ==> MatchesAnyIgnoringCase(ua, MobileKeywords)
  {
    if MatchesAny(ua, IosKeywords) {
      var j :| 0 <= j < |IosKeywords| && Contains(ua, IosKeywords[j]);
      var m := if j == 0 then 3 else if j == 1 then 2 else 4;
      assert IosKeywords[j] == MobileKeywords[m];
      OccurrenceSurvivesLowering(ua, MobileKeywords[m]);
    }
  }

  /** `Android` is a mobile alternative. */
  lemma AndroidKeywordIsMobile(ua: string)
    ensures Contains(ua, AndroidKeyword) ==> MatchesAnyIgnoringCase(ua, MobileKeywords)
  {
    if Contains(ua, AndroidKeyword) {
      assert MobileKeywords[0] == AndroidKeyword;
      OccurrenceSurvivesLowering(ua, MobileKeywords[0]);
    }
  }

  /** The `/i` tests give the same answer for a user agent and its lower-cased form. */
  lemma CaseInsensitiveTests(ua: string)
    ensures IsMobile(Lower(ua)) <==> IsMobile(ua)
    ensures IsWeChat(Lower(ua)) <==> IsWeChat(ua)
  {
    LowerIdempotent(ua);
    assert IsMobile(Lower(ua)) == MatchesAnyIgnoringCase(Lower(ua), MobileKeywords);
    assert IsWeChat(Lower(ua)) == Contains(Lower(Lower(ua)), Lower(WeChatKeyword));
  }

  /** The iOS test is case-sensitive while the mobile test is not. */
  lemma UpperCaseIphone()
    ensures !IsIOS("IPHONE") && IsMobile("IPHONE")
  {
    UpperCaseIsNotIos("IPHONE");
    UpperCaseIphoneIsMobile();
  }

  /** No iOS keyword starts with an upper-case `I`. */
  lemma UpperCaseIsNotIos(ua: string)
    requires 'i' !in ua
    ensures !IsIOS(ua)
  {
    forall j | 0 <= j < |IosKeywords|
      ensures !Contains(ua, IosKeywords[j])
    {
      assert IosKeywords[j][0] == 'i';
      AbsentFirstChar(ua, IosKeywords[j]);
    }
  }

  lemma UpperCaseIphoneIsMobile()
    ensures IsMobile("IPHONE")
  {
    var ua := "IPHONE";
    assert Lower(ua) == "iphone";
    assert Lower(MobileKeywords[2]) == "iphone";
    ContainsAt("iphone", "iphone", 0);
    assert Contains(Lower(ua), Lower(MobileKeywords[2]));
  }

  /** `getDeviceInfo()`; the screen size is read from the window and passed in. */
  datatype DeviceInfo = DeviceInfo(
    isMobile: bool, isIOS: bool, isAndroid: bool, isWeChat: bool,
    userAgent: string, screenWidth: int, screenHeight: int)

  function DeviceInfoOf(ua: string, screenWidth: int, screenHeight: int): (info: DeviceInfo)
    ensures info.isIOS ==> info.isMobile
    ensures info.isAndroid ==> info.isMobile
    ensures info.userAgent == ua
  {
    DeviceInfo(IsMobile(ua), IsIOS(ua), IsAndroid(ua), IsWeChat(ua), ua, screenWidth, screenHeight)
  }
}
