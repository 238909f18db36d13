/**
 * User-agent classification: three first-match decision lists over the
 * strings of a browser's `navigator` object, and the two `detect*` helpers
 * that compare their answer with an expected one.
 *
 * Every regular expression the classifiers use is one of: a case-sensitive
 * substring test, a case-insensitive (ASCII) substring test, or the single
 * anchored pattern `Firefox/<digits>.<digits>` at the end of the string.
 */
module Dom {
  import opened Wrappers

  /** The three `navigator` fields the classifiers read. */
  datatype Navigator = Navigator(userAgent: string, vendor: string, platform: string)

  // ---------------------------------------------------------------------
  // Pattern tests

  /** `t` occurs in `s` starting at index `i`. */
  predicate OccursAt(s: string, t: string, i: nat)
  {
    i + |t| <= |s| && s[i..i + |t|] == t
  }

  /** `t` occurs in `s` at index `i`, letters compared after ASCII lower-casing. */
  predicate OccursAtIgnoreCase(s: string, t: string, i: nat)
  {
    i + |t| <= |s| && forall k :: 0 <= k < |t| ==> LowerChar(s[i + k]) == LowerChar(t[k])
  }

  /** `/t/.test(s)` for a pattern `t` without special characters: `t` occurs in `s`. */
  predicate Contains(s: string, t: string)
    decreases |s|
  {
    t <= s || (s != [] && Contains(s[1..], t))
  }

  function LowerChar(c: char): char
  {
    if 'A' <= c <= 'Z' then (c as int + 32) as char else c
  }

  function Lower(s: string): (r: string)
    ensures |r| == |s|
    ensures forall i :: 0 <= i < |s| ==> r[i] == LowerChar(s[i])
  {
    seq(|s|, i requires 0 <= i < |s| => LowerChar(s[i]))
  }

  /**
   * `/t/i.test(s)` for an ASCII pattern `t`. Without the `u` flag the regular
   * expression compares characters after upper-casing them, and that mapping
   * never takes a non-ASCII character to an ASCII one; so against an ASCII
   * pattern, folding the ASCII letters alone decides the same matches.
   */
  predicate ContainsIgnoreCase(s: string, t: string)
  {
    Contains(Lower(s), Lower(t))
  }

  predicate IsDigit(c: char)
  {
    '0' <= c <= '9'
  }

  predicate AllDigits(s: string)
  {
    forall i :: 0 <= i < |s| ==> IsDigit(s[i])
  }

  /** The length of the longest run of ASCII digits that ends the string. */
  function TrailingDigits(s: string): (n: nat)
    ensures n <= |s|
    ensures AllDigits(s[|s| - n..])
    ensures n < |s| ==> !IsDigit(s[|s| - n - 1])
  {
    if s == [] || !IsDigit(s[|s| - 1]) then 0
    else
      var m := TrailingDigits(s[..|s| - 1]);
      DigitRunExtends(s, m);
      1 + m
  }

  /** A digit run ending just before a final digit extends by that digit. */
  lemma DigitRunExtends(s: string, m: nat)
    requires s != [] && IsDigit(s[|s| - 1]) && m <= |s| - 1
    requires AllDigits(s[..|s| - 1][|s| - 1 - m..])
    requires m < |s| - 1 ==> !IsDigit(s[..|s| - 1][|s| - 1 - m - 1])
    ensures AllDigits(s[|s| - (m + 1)..])
    ensures m + 1 < |s| ==> !IsDigit(s[|s| - (m + 1) - 1])
  {
    assert s[|s| - (m + 1)..] == s[..|s| - 1][|s| - 1 - m..] + [s[|s| - 1]];
  }

  predicate EndsWith(s: string, t: string)
  {
    |t| <= |s| && s[|s| - |t|..] == t
  }

  /** `/Firefox\/\d+\.\d+$/.test(ua)`, by peeling the two digit runs off the end. */
  predicate EndsWithFirefoxVersion(ua: string)
  {
    var minor := TrailingDigits(ua);
    0 < minor < |ua| && ua[|ua| - minor - 1] == '.' &&
    var rest := ua[..|ua| - minor - 1];
    var major := TrailingDigits(rest);
    0 < major && EndsWith(rest[..|rest| - major], "Firefox/")
  }

  /** The same pattern stated as the regular expression reads: "Firefox/", digits, ".", digits, end. */
  ghost predicate FirefoxVersionAt(ua: string, p: nat, q: nat)
  {
    p + 8 < q < |ua| - 1 &&
    ua[p..p + 8] == "Firefox/" && AllDigits(ua[p + 8..q]) && ua[q] == '.' && AllDigits(ua[q + 1..])
  }

  ghost predicate FirefoxVersionShape(ua: string)
  {
    exists p: nat, q: nat :: FirefoxVersionAt(ua, p, q)
  }

  // ---------------------------------------------------------------------
  // Classifiers

  datatype Browser = ChromeForIOS | Edge | Silk | Chrome | Firefox | AOSP | IE | Safari | WebKit

  function BrowserName(b: Browser): string
  {
    match b
    case ChromeForIOS => "Chrome for iOS"
    case Edge => "Edge"
    case Silk => "Silk"
    case Chrome => "Chrome"
    case Firefox => "Firefox"
    case AOSP => "AOSP"
    case IE => "IE"
    case Safari => "Safari"
    case WebKit => "WebKit"
  }

  predicate IsAndroid(ua: string)
  {
    ContainsIgnoreCase(ua, "android")
  }

  /** Some rule of the browser list fires. */
  predicate AnyBrowserRule(nav: Navigator)
  {
    var ua := nav.userAgent;
    Contains(ua, "CriOS") || Contains(ua, "Edg/") || (IsAndroid(ua) && Contains(ua, "Silk/")) ||
    (Contains(ua, "Chrome") && Contains(nav.vendor, "Google Inc")) || EndsWithFirefoxVersion(ua) ||
    IsAndroid(ua) || Contains(ua, "MSIE") || Contains(ua, "Trident") ||
    (Contains(ua, "Safari") && Contains(ua, "Apple Computer")) || Contains(ua, "AppleWebKit")
  }

  /** `getUserAgentBrowser`: the first rule that fires decides. */
  function GetUserAgentBrowser(nav: Navigator): (r: Option<Browser>)
    ensures Contains(nav.userAgent, "CriOS") ==> r == Some(ChromeForIOS)
    ensures r == None <==> !AnyBrowserRule(nav)
  {
    var ua := nav.userAgent;
    var android := IsAndroid(ua);
    if Contains(ua, "CriOS") then Some(ChromeForIOS)
    else if Contains(ua, "Edg/") then Some(Edge)
    else if android && Contains(ua, "Silk/") then Some(Silk)
    else if Contains(ua, "Chrome") && Contains(nav.vendor, "Google Inc") then Some(Chrome)
    else if EndsWithFirefoxVersion(ua) then Some(Firefox)
    else if android then Some(AOSP)
    else if Contains(ua, "MSIE") || Contains(ua, "Trident") then Some(IE)
    // the source tests "Apple Computer" against the user agent, not the vendor
    else if Contains(nav.userAgent, "Safari") && Contains(ua, "Apple Computer") then Some(Safari)
    else if Contains(ua, "AppleWebKit") then Some(WebKit)
    else None
  }

  datatype OS = Android | IOS | Windows | Mac | ChromeOS | FirefoxOS

  function OSName(os: OS): string
  {
    match os
    case Android => "Android"
    case IOS => "iOS"
    case Windows => "Windows"
    case Mac => "Mac"
    case ChromeOS => "Chrome OS"
    case FirefoxOS => "Firefox OS"
  }

  predicate IsIOSPlatform(platform: string)
  {
    Contains(platform, "iPhone") || Contains(platform, "iPad") || Contains(platform, "iPod")
  }

  /** Some rule of the operating-system list fires. */
  predicate AnyOSRule(nav: Navigator)
  {
    Contains(nav.userAgent, "Android") || IsIOSPlatform(nav.platform) || Contains(nav.platform, "Win") ||
    Contains(nav.platform, "Mac") || Contains(nav.userAgent, "CrOS") || Contains(nav.userAgent, "Firefox")
  }

  /** `getUserAgentOS`: the first rule that fires decides. */
  function GetUserAgentOS(nav: Navigator): (r: Option<OS>)
    ensures Contains(nav.userAgent, "Android") ==> r == Some(Android)
    ensures r == None <==> !AnyOSRule(nav)
  {
    var ua := nav.userAgent;
    var platform := nav.platform;
    if Contains(ua, "Android") then Some(Android)
    else if IsIOSPlatform(platform) then Some(IOS)
    else if Contains(platform, "Win") then Some(Windows)
    else if Contains(platform, "Mac") then Some(Mac)
    else if Contains(ua, "CrOS") then Some(ChromeOS)
    else if Contains(ua, "Firefox") then Some(FirefoxOS)
    else None
  }

  datatype DeviceType = Tablet | Phone | Desktop

  function DeviceName(d: DeviceType): (r: string)
    ensures r in {"tablet", "phone", "desktop"}
  {
    match d
    case Tablet => "tablet"
    case Phone => "phone"
    case Desktop => "desktop"
  }

  /** `/(tablet)|(iPad)|(Nexus 9)/i` */
  predicate IsTabletUA(ua: string)
  {
    ContainsIgnoreCase(ua, "tablet") || ContainsIgnoreCase(ua, "iPad") || ContainsIgnoreCase(ua, "Nexus 9")
  }

  /** `detectDeviceType`: tablet tokens first, then "mobi", otherwise desktop. */
  function DetectDeviceType(nav: Navigator): (r: DeviceType)
    ensures IsTabletUA(nav.userAgent) ==> r == Tablet
    ensures r == Phone <==> !IsTabletUA(nav.userAgent) && ContainsIgnoreCase(nav.userAgent, "mobi")
    ensures r == Desktop <==> !IsTabletUA(nav.userAgent) && !ContainsIgnoreCase(nav.userAgent, "mobi")
  {
    var ua := nav.userAgent;
    if IsTabletUA(ua) then Tablet
    else if ContainsIgnoreCase(ua, "mobi") then Phone
    else Desktop
  }

  /** `detectOS(os)`: false outside a browser, otherwise whether the classified OS is `os`. */
  function DetectOS(isBrowser: bool, nav: Navigator, os: OS): (r: bool)
    ensures r ==> isBrowser && AnyOSRule(nav)
    ensures isBrowser ==> (r <==> GetUserAgentOS(nav) == Some(os))
  {
    if !isBrowser then false else GetUserAgentOS(nav) == Some(os)
  }

  /** `detectBrowser(browser)`: false outside a browser, otherwise whether the classified browser is `browser`. */
  function DetectBrowser(isBrowser: bool, nav: Navigator, browser: Browser): (r: bool)
    ensures r ==> isBrowser && AnyBrowserRule(nav)
    ensures isBrowser ==> (r <==> GetUserAgentBrowser(nav) == Some(browser))
  {
    if !isBrowser then false else GetUserAgentBrowser(nav) == Some(browser)
  }

  // ---------------------------------------------------------------------
  // The anchored Firefox pattern

  /** A digit run that ends the string and is not preceded by a digit is the trailing digit run. */
  lemma {:induction false} TrailingDigitsExact(s: string, n: nat)
    requires n <= |s| && AllDigits(s[|s| - n..])
    requires n < |s| ==> !IsDigit(s[|s| - n - 1])
    ensures TrailingDigits(s) == n
    decreases n
  {
    if n > 0 {
      var s' := s[..|s| - 1];
      assert IsDigit(s[|s| - n..][n - 1]);
      assert s'[|s'| - (n - 1)..] == s[|s| - n..|s| - 1];
      if n - 1 < |s'| {
        assert s'[|s'| - (n - 1) - 1] == s[|s| - n - 1];
      }
      TrailingDigitsExact(s', n - 1);
    }
  }

  /** Where the peeled pattern sits: "Firefox/" at `p`, the dot at `q`. */
  lemma FirefoxVersionPositions(ua: string) returns (p: nat, q: nat)
    requires EndsWithFirefoxVersion(ua)
    ensures FirefoxVersionAt(ua, p, q)
  {
    var minor := TrailingDigits(ua);
    q := |ua| - minor - 1;
    var major := TrailingDigits(ua[..q]);
    FirefoxMarkerAt(ua, q, major);
    FirefoxMajorDigits(ua, q, major);
    p := q - major - 8;
    FirefoxVersionAtParts(ua, p, q);
  }

  /** The positions' facts, one by one, make up `FirefoxVersionAt`. */
  lemma FirefoxVersionAtParts(ua: string, p: nat, q: nat)
    requires p + 8 < q < |ua| - 1
    requires ua[p..p + 8] == "Firefox/" && AllDigits(ua[p + 8..q])
    requires ua[q] == '.' && AllDigits(ua[q + 1..])
    ensures FirefoxVersionAt(ua, p, q)
  {
  }

  /** The "Firefox/" that ends the prefix before the major digits, as a slice of `ua`. */
  lemma FirefoxMarkerAt(ua: string, q: nat, major: nat)
    requires major <= q <= |ua|
    requires EndsWith(ua[..q][..q - major], "Firefox/")
    ensures 8 <= q - major && ua[q - major - 8..q - major] == "Firefox/"
  {
    assert ua[..q][..q - major] == ua[..q - major];
    PrefixSlice(ua, q - major, q - major - 8);
  }

  /** The major digits, as a slice of `ua`. */
  lemma FirefoxMajorDigits(ua: string, q: nat, major: nat)
    requires major <= q <= |ua|
    requires AllDigits(ua[..q][q - major..])
    ensures AllDigits(ua[q - major..q])
  {
    PrefixSlice(ua, q, q - major);
  }

  lemma PrefixSlice(s: string, n: nat, i: nat)
    requires i <= n <= |s|
    ensures s[..n][i..] == s[i..n]
  {
  }

  lemma FirefoxVersionSound(ua: string)
    requires EndsWithFirefoxVersion(ua)
    ensures FirefoxVersionShape(ua)
  {
    var p, q := FirefoxVersionPositions(ua);
  }

  lemma FirefoxVersionComplete(ua: string, p: nat, q: nat)
    requires FirefoxVersionAt(ua, p, q)
    ensures EndsWithFirefoxVersion(ua)
  {
    TrailingDigitsExact(ua, |ua| - q - 1);
    var rest := ua[..q];
    var major := q - p - 8;
    assert rest[|rest| - major..] == ua[p + 8..q];
    assert rest[|rest| - major - 1] == ua[p..p + 8][7];
    TrailingDigitsExact(rest, major);
    assert rest[..|rest| - major][p..] == ua[p..p + 8];
  }

  /** Peeling digit runs off the end decides exactly the anchored pattern `Firefox\/\d+\.\d+$`. */
  lemma FirefoxVersionIff(ua: string)
    ensures EndsWithFirefoxVersion(ua) <==> FirefoxVersionShape(ua)
  {
    if EndsWithFirefoxVersion(ua) {
      FirefoxVersionSound(ua);
    }
    if FirefoxVersionShape(ua) {
      var p: nat, q: nat :| FirefoxVersionAt(ua, p, q);
      FirefoxVersionComplete(ua, p, q);
    }
  }

  // ---------------------------------------------------------------------
  // Priority of the browser rules

  /** Without "CriOS", "Edg/" wins over every later rule, Chrome with a Google vendor included. */
  lemma EdgeBeatsChrome(nav: Navigator)
    requires !Contains(nav.userAgent, "CriOS") && Contains(nav.userAgent, "Edg/")
    ensures GetUserAgentBrowser(nav) == Some(Edge)
  {
  }

  /** "Silk" exactly for android user agents with "Silk/" that no earlier rule claims. */
  lemma SilkIff(nav: Navigator)
    ensures GetUserAgentBrowser(nav) == Some(Silk) <==>
      !Contains(nav.userAgent, "CriOS") && !Contains(nav.userAgent, "Edg/") &&
      IsAndroid(nav.userAgent) && Contains(nav.userAgent, "Silk/")
  {
  }

  /** "Chrome" needs both the user-agent token and the Google vendor. */
  lemma ChromeNeedsGoogleVendor(nav: Navigator)
    requires GetUserAgentBrowser(nav) == Some(Chrome)
    ensures Contains(nav.userAgent, "Chrome") && Contains(nav.vendor, "Google Inc")
  {
  }

  /** "Firefox" only for a user agent that ends in "Firefox/" digits "." digits. */
  lemma FirefoxNeedsVersionSuffix(nav: Navigator)
    requires GetUserAgentBrowser(nav) == Some(Firefox)
    ensures FirefoxVersionShape(nav.userAgent)
  {
    FirefoxVersionIff(nav.userAgent);
  }

  /** An android user agent is one of the android-aware answers, and "AOSP" when nothing earlier fires. */
  lemma AndroidFallsBackToAOSP(nav: Navigator)
    requires IsAndroid(nav.userAgent)
    ensures GetUserAgentBrowser(nav) in {Some(ChromeForIOS), Some(Edge), Some(Silk), Some(Chrome), Some(Firefox), Some(AOSP)}
    ensures (!Contains(nav.userAgent, "CriOS") && !Contains(nav.userAgent, "Edg/") && !Contains(nav.userAgent, "Silk/") &&
             !(Contains(nav.userAgent, "Chrome") && Contains(nav.vendor, "Google Inc")) &&
             !EndsWithFirefoxVersion(nav.userAgent)) ==> GetUserAgentBrowser(nav) == Some(AOSP)
  {
  }

  /** The vendor string matters only to the Chrome rule, and the platform not at all. */
  lemma VendorOnlyMattersForChrome(ua: string, vendor1: string, platform1: string, vendor2: string, platform2: string)
    requires !Contains(ua, "Chrome")
    ensures GetUserAgentBrowser(Navigator(ua, vendor1, platform1)) == GetUserAgentBrowser(Navigator(ua, vendor2, platform2))
  {
  }

  /** "Safari" needs "Apple Computer" in the user agent itself; the vendor is not consulted. */
  lemma SafariReadsUserAgentOnly(nav: Navigator)
    requires GetUserAgentBrowser(nav) == Some(Safari)
    ensures Contains(nav.userAgent, "Safari") && Contains(nav.userAgent, "Apple Computer")
  {
  }

  /** "WebKit" exactly when "AppleWebKit" is present and none of the eight earlier rules fires. */
  lemma WebKitIff(nav: Navigator)
    ensures GetUserAgentBrowser(nav) == Some(WebKit) <==>
      !Contains(nav.userAgent, "CriOS") && !Contains(nav.userAgent, "Edg/") && !IsAndroid(nav.userAgent) &&
      !(Contains(nav.userAgent, "Chrome") && Contains(nav.vendor, "Google Inc")) &&
      !EndsWithFirefoxVersion(nav.userAgent) &&
      !Contains(nav.userAgent, "MSIE") && !Contains(nav.userAgent, "Trident") &&
      !(Contains(nav.userAgent, "Safari") && Contains(nav.userAgent, "Apple Computer")) &&
      Contains(nav.userAgent, "AppleWebKit")
  {
  }

  lemma SafariAgentLacksCapital(ua: string, c: char)
    requires ua == "AppleWebKit/605 Safari/605" && c in "CEMT"
    ensures forall i :: 0 <= i < |ua| ==> ua[i] != c
  {
  }

  lemma SafariAgentLacksCriOS(ua: string)
    requires ua == "AppleWebKit/605 Safari/605"
    ensures !Contains(ua, "CriOS")
  {
    SafariAgentLacksCapital(ua, 'C');
    MissingCharNotContained(ua, "CriOS", 0);
  }

  lemma SafariAgentLacksChrome(ua: string)
    requires ua == "AppleWebKit/605 Safari/605"
    ensures !Contains(ua, "Chrome")
  {
    SafariAgentLacksCapital(ua, 'C');
    MissingCharNotContained(ua, "Chrome", 0);
  }

  lemma SafariAgentLacksAppleComputer(ua: string)
    requires ua == "AppleWebKit/605 Safari/605"
    ensures !Contains(ua, "Apple Computer")
  {
    SafariAgentLacksCapital(ua, 'C');
    MissingCharNotContained(ua, "Apple Computer", 6);
  }

  lemma SafariAgentTokens(ua: string)
    requires ua == "AppleWebKit/605 Safari/605"
    ensures !Contains(ua, "Edg/") && !Contains(ua, "MSIE") && !Contains(ua, "Trident")
    ensures Contains(ua, "AppleWebKit")
  {
    SafariAgentLacksCapital(ua, 'E');
    SafariAgentLacksCapital(ua, 'M');
    SafariAgentLacksCapital(ua, 'T');
    MissingCharNotContained(ua, "Edg/", 0);
    MissingCharNotContained(ua, "MSIE", 0);
    MissingCharNotContained(ua, "Trident", 0);
    assert ua[0..11] == "AppleWebKit";
    ContainsAt(ua, "AppleWebKit", 0);
  }

  lemma SafariAgentLacksN(ua: string)
    requires ua == "AppleWebKit/605 Safari/605"
    ensures forall i :: 0 <= i < |ua| ==> LowerChar(ua[i]) != 'n'
  {
  }

  lemma SafariAgentNotAndroid(ua: string)
    requires ua == "AppleWebKit/605 Safari/605"
    ensures !IsAndroid(ua)
  {
    SafariAgentLacksN(ua);
    assert Lower("android")[1] == 'n';
    MissingCharNotContained(Lower(ua), Lower("android"), 1);
  }

  lemma SafariAgentNotFirefox(ua: string)
    requires ua == "AppleWebKit/605 Safari/605"
    ensures !EndsWithFirefoxVersion(ua)
  {
    assert ua[|ua| - 4] == '/' && ua[|ua| - 3..] == "605";
    TrailingDigitsExact(ua, 3);
  }

  /** Hence the sample Safari navigator, whose user agent has no "Apple Computer" (only its vendor has), is "WebKit". */
  lemma DesktopSafariIsWebKit(nav: Navigator)
    requires nav == Navigator("AppleWebKit/605 Safari/605", "Apple Computer, Inc.", "MacIntel")
    ensures GetUserAgentBrowser(nav) == Some(WebKit)
  {
    SafariAgentLacksCriOS(nav.userAgent);
    SafariAgentLacksChrome(nav.userAgent);
    SafariAgentLacksAppleComputer(nav.userAgent);
    SafariAgentTokens(nav.userAgent);
    SafariAgentNotAndroid(nav.userAgent);
    SafariAgentNotFirefox(nav.userAgent);
    WebKitIff(nav);
  }

  /** A pattern occurring at a given position is contained. */
  lemma {:induction false} ContainsAt(s: string, t: string, i: nat)
    requires OccursAt(s, t, i)
    ensures Contains(s, t)
    decreases i
  {
    if i > 0 {
      assert s[1..][i - 1..i - 1 + |t|] == s[i..i + |t|];
      ContainsAt(s[1..], t, i - 1);
    }
  }

  /** A pattern with a character the string lacks is not contained. */
  lemma {:induction false} MissingCharNotContained(s: string, t: string, j: nat)
    requires j < |t|
    requires forall i :: 0 <= i < |s| ==> s[i] != t[j]
    ensures !Contains(s, t)
    decreases |s|
  {
    assert |t| <= |s| ==> s[..|t|][j] == s[j];
    if s != [] {
      MissingCharNotContained(s[1..], t, j);
    }
  }

  /** The substring test finds `t` exactly when `t` occurs at some index of `s`. */
  lemma {:induction false} ContainsIff(s: string, t: string)
    ensures Contains(s, t) <==> exists i: nat :: OccursAt(s, t, i)
    decreases |s|
  {
    if Contains(s, t) {
      if t <= s {
        assert OccursAt(s, t, 0);
      } else {
        ContainsIff(s[1..], t);
        var i: nat :| OccursAt(s[1..], t, i);
        assert s[1..][i..i + |t|] == s[i + 1..i + 1 + |t|];
        assert OccursAt(s, t, i + 1);
      }
    }
    if exists i: nat :: OccursAt(s, t, i) {
      var i: nat :| OccursAt(s, t, i);
      ContainsAt(s, t, i);
    }
  }

  /** Lower-casing both strings turns an occurrence ignoring case into a plain one, and back. */
  lemma OccursAtLower(s: string, t: string, i: nat)
    ensures OccursAt(Lower(s), Lower(t), i) <==> OccursAtIgnoreCase(s, t, i)
  {
    if i + |t| <= |s| {
      if OccursAtIgnoreCase(s, t, i) {
        assert forall k :: 0 <= k < |t| ==> Lower(s)[i..i + |t|][k] == Lower(t)[k];
      }
      if OccursAt(Lower(s), Lower(t), i) {
        forall k | 0 <= k < |t|
          ensures LowerChar(s[i + k]) == LowerChar(t[k])
        {
          assert Lower(s)[i..i + |t|][k] == Lower(t)[k];
        }
      }
    }
  }

  /** The case-insensitive test finds `t` exactly when it occurs at some index, ignoring ASCII case. */
  lemma ContainsIgnoreCaseIff(s: string, t: string)
    ensures ContainsIgnoreCase(s, t) <==> exists i: nat :: OccursAtIgnoreCase(s, t, i)
  {
    ContainsIff(Lower(s), Lower(t));
    forall i: nat
      ensures OccursAt(Lower(s), Lower(t), i) <==> OccursAtIgnoreCase(s, t, i)
    {
      OccursAtLower(s, t, i);
    }
  }

  // ---------------------------------------------------------------------
  // Priority of the operating-system rules

  /** "Android" in the user agent wins whatever the platform says. */
  lemma AndroidBeatsPlatform(ua: string, vendor1: string, platform1: string, vendor2: string, platform2: string)
    requires Contains(ua, "Android")
    ensures GetUserAgentOS(Navigator(ua, vendor1, platform1)) == GetUserAgentOS(Navigator(ua, vendor2, platform2)) == Some(Android)
  {
  }

  /** iPhone, iPad and iPod platforms are iOS before the Win and Mac tests are reached. */
  lemma IOSBeforeWindowsAndMac(nav: Navigator)
    requires !Contains(nav.userAgent, "Android") && IsIOSPlatform(nav.platform)
    ensures GetUserAgentOS(nav) == Some(IOS)
  {
  }

  /** A string without ASCII capitals is its own lower-casing. */
  lemma LowerWithoutCapitals(s: string)
    requires forall i :: 0 <= i < |s| ==> !('A' <= s[i] <= 'Z')
    ensures Lower(s) == s
  {
  }

  /** A string without ASCII capitals contains no pattern that starts with one. */
  lemma NoCapitalsMissesToken(s: string, t: string)
    requires forall i :: 0 <= i < |s| ==> !('A' <= s[i] <= 'Z')
    requires t != [] && 'A' <= t[0] <= 'Z'
    ensures !Contains(s, t)
  {
    MissingCharNotContained(s, t, 0);
  }

  /** A user agent ending in a Firefox version holds the capital 'F' of "Firefox/". */
  lemma FirefoxVersionHasCapital(ua: string)
    requires EndsWithFirefoxVersion(ua)
    ensures exists i :: 0 <= i < |ua| && ua[i] == 'F'
  {
    var p, q := FirefoxVersionPositions(ua);
    assert ua[p] == ua[p..p + 8][0];
  }

  /**
   * The OS test for Android is case-sensitive while the browser's is not: a user agent
   * without ASCII capitals that contains "android" is "AOSP", is never the Android OS, and
   * has no OS at all unless the platform names iOS, Windows or Mac.
   */
  lemma LowercaseAndroid(nav: Navigator)
    requires forall i :: 0 <= i < |nav.userAgent| ==> !('A' <= nav.userAgent[i] <= 'Z')
    requires Contains(nav.userAgent, "android")
    ensures GetUserAgentBrowser(nav) == Some(AOSP)
    ensures GetUserAgentOS(nav) != Some(Android)
    ensures GetUserAgentOS(nav) == None <==>
      !IsIOSPlatform(nav.platform) && !Contains(nav.platform, "Win") && !Contains(nav.platform, "Mac")
  {
    var ua := nav.userAgent;
    NoCapitalsMissesToken(ua, "CriOS");
    NoCapitalsMissesToken(ua, "Edg/");
    NoCapitalsMissesToken(ua, "Silk/");
    NoCapitalsMissesToken(ua, "Chrome");
    NoCapitalsMissesToken(ua, "Android");
    NoCapitalsMissesToken(ua, "CrOS");
    NoCapitalsMissesToken(ua, "Firefox");
    LowerWithoutCapitals(ua);
    LowerWithoutCapitals("android");
    assert IsAndroid(ua);
    if EndsWithFirefoxVersion(ua) {
      FirefoxVersionHasCapital(ua);
      assert false;
    }
  }

  // ---------------------------------------------------------------------
  // Returned names

  /** Distinct browsers are reported under distinct names. */
  lemma BrowserNamesDistinct(a: Browser, b: Browser)
    requires a != b
    ensures BrowserName(a) != BrowserName(b)
  {
  }

  /** Distinct operating systems are reported under distinct names. */
  lemma OSNamesDistinct(a: OS, b: OS)
    requires a != b
    ensures OSName(a) != OSName(b)
  {
  }
}
