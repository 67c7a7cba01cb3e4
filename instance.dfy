/**
 * The post-navigation outcome classifier of browser/instance.py: from the
 * final URL, the expected URL and the login-button probe it picks one of
 * five outcomes in a fixed priority order, and each failure outcome writes
 * exactly one screenshot with a deterministic name.
 */
module Instance {
  /** The account-identifier sign-in page (cookies entirely invalid). */
  const IdentifierMarker: string := "accounts.google.com/v3/signin/identifier"

  /** The account chooser page. */
  const ChooserMarker: string := "accounts.google.com/v3/signin/accountchooser"

  /** The directory screenshots are written to. */
  const ScreenshotDir: string := "logs"

  /** Python's `sub in s` on strings. */
  predicate Contains(s: string, sub: string) {
    exists i :: 0 <= i <= |s| && sub <= s[i..]
  }

  /** `url.split('?')[0]`: the text before the first `?`. */
  function BeforeQuery(url: string): (r: string)
    ensures r <= url
    ensures '?' !in r
    ensures |r| < |url| ==> url[|r|] == '?'
  {
    if url == [] || url[0] == '?' then [] else [url[0]] + BeforeQuery(url[1..])
  }

  /** The three properties of BeforeQuery determine it. */
  lemma {:induction false} BeforeQueryUnique(url: string, r: string)
    requires r <= url && '?' !in r
    requires |r| < |url| ==> url[|r|] == '?'
    ensures BeforeQuery(url) == r
  {
    if url != [] && url[0] != '?' {
      assert r != [] && r[0] == url[0];
      BeforeQueryUnique(url[1..], r[1..]);
    }
  }

  /** A query string after the base is ignored. */
  lemma BeforeQueryDropsQuery(base: string, query: string)
    requires '?' !in base
    ensures BeforeQuery(base + "?" + query) == base
  {
    BeforeQueryUnique(base + "?" + query, base);
  }

  /** The two login-button probes (`登录` and `Login`), each a visibility check. */
  datatype LoginProbe = LoginProbe(chineseVisible: bool, englishVisible: bool)

  datatype Outcome =
    | IdentifierPage      // redirected to the identifier sign-in page
    | LoginButtonVisible  // target reached, but a login button is shown
    | Confirmed           // target reached and no login button: hand off
    | AccountChooser      // redirected to the account chooser
    | UnexpectedUrl       // anything else

  /** The target branch: the expected URL without its query is part of the final URL. */
  predicate ReachedTarget(finalUrl: string, expectedUrl: string) {
    Contains(finalUrl, BeforeQuery(expectedUrl))
  }

  /** The if/elif chain on the final URL. */
  function Classify(finalUrl: string, expectedUrl: string, probe: LoginProbe): Outcome {
    if Contains(finalUrl, IdentifierMarker) then IdentifierPage
    else if ReachedTarget(finalUrl, expectedUrl) then
      if probe.chineseVisible || probe.englishVisible then LoginButtonVisible else Confirmed
    else if Contains(finalUrl, ChooserMarker) then AccountChooser
    else UnexpectedUrl
  }

  /**
   * The priority order, outcome by outcome: the identifier page whatever the
   * expected URL; the target branch exactly when the identifier marker is
   * absent and the target matches, split by the probe; the chooser only when
   * neither matched; and everything else unexpected.
   */
  lemma ClassifyPriority(finalUrl: string, expectedUrl: string, probe: LoginProbe)
    ensures var o := Classify(finalUrl, expectedUrl, probe);
      && (Contains(finalUrl, IdentifierMarker) ==> o == IdentifierPage)
      && ((o == LoginButtonVisible || o == Confirmed) <==>
            !Contains(finalUrl, IdentifierMarker) && ReachedTarget(finalUrl, expectedUrl))
      && (o == LoginButtonVisible <==>
            !Contains(finalUrl, IdentifierMarker) && ReachedTarget(finalUrl, expectedUrl)
            && (probe.chineseVisible || probe.englishVisible))
      && (o == AccountChooser <==>
            !Contains(finalUrl, IdentifierMarker) && !ReachedTarget(finalUrl, expectedUrl)
            && Contains(finalUrl, ChooserMarker))
      && (o == UnexpectedUrl <==>
            !Contains(finalUrl, IdentifierMarker) && !ReachedTarget(finalUrl, expectedUrl)
            && !Contains(finalUrl, ChooserMarker))
  {
  }

  /** Only the part of the expected URL before `?` matters. */
  lemma QueryStringIgnored(finalUrl: string, expected1: string, expected2: string, probe: LoginProbe)
    requires BeforeQuery(expected1) == BeforeQuery(expected2)
    ensures Classify(finalUrl, expected1, probe) == Classify(finalUrl, expected2, probe)
  {
  }

  /** Expected `<base>?<q1>` and final `<base>?<q2>` take the target branch,
      whatever the two query strings are. */
  lemma DifferentQueryReachesTarget(base: string, q1: string, q2: string, probe: LoginProbe)
    requires '?' !in base
    requires !Contains(base + "?" + q2, IdentifierMarker)
    ensures Classify(base + "?" + q2, base + "?" + q1, probe) ==
      if probe.chineseVisible || probe.englishVisible then LoginButtonVisible else Confirmed
  {
    BeforeQueryDropsQuery(base, q1);
    var final := base + "?" + q2;
    assert base <= final[0..];
  }

  /** The identifier page wins even when its URL also carries the target. */
  lemma IdentifierBeatsTarget(expectedUrl: string, probe: LoginProbe)
    ensures Classify("https://" + IdentifierMarker + "?continue=" + expectedUrl, expectedUrl, probe)
      == IdentifierPage
  {
    var final := "https://" + IdentifierMarker + "?continue=" + expectedUrl;
    assert final[8..] == IdentifierMarker + "?continue=" + expectedUrl;
    assert IdentifierMarker <= final[8..];
  }

  /** The `<kind>` part of a failure screenshot's name. */
  function FailureKind(o: Outcome): string
    requires o != Confirmed
  {
    match o
    case IdentifierPage => "identifier_page"
    case LoginButtonVisible => "login_button_visible"
    case AccountChooser => "chooser_click_failed"
    case UnexpectedUrl => "unexpected_url"
  }

  /** `os.path.join('logs', f"FAIL_{kind}_{cookie_file}.png")`. */
  function ScreenshotPath(o: Outcome, cookieFile: string): string
    requires o != Confirmed
  {
    ScreenshotDir + "/FAIL_" + FailureKind(o) + "_" + cookieFile + ".png"
  }

  /** The screenshots an outcome writes: one for each failure, none on the
      hand-off (whose own screenshot is not part of this model). */
  function Screenshots(o: Outcome, cookieFile: string): (paths: seq<string>)
    ensures |paths| <= 1
    ensures paths == [] <==> o == Confirmed
    ensures o != Confirmed ==> paths == [ScreenshotPath(o, cookieFile)]
  {
    if o == Confirmed then [] else [ScreenshotPath(o, cookieFile)]
  }

  /** A screenshot's name determines the outcome and the cookie file it was
      written for: two failing runs never overwrite each other's screenshot
      unless they share both. */
  lemma {:induction false} ScreenshotPathInjective(o1: Outcome, c1: string, o2: Outcome, c2: string)
    requires o1 != Confirmed && o2 != Confirmed
    requires ScreenshotPath(o1, c1) == ScreenshotPath(o2, c2)
    ensures o1 == o2 && c1 == c2
  {
    var prefix := ScreenshotDir + "/FAIL_";
    assert |prefix| == 10;
    var k1, k2 := FailureKind(o1), FailureKind(o2);
    assert ScreenshotPath(o1, c1)[10] == k1[0];
    assert ScreenshotPath(o2, c2)[10] == k2[0];
    KindsDiffer(o1, o2);
    var head := prefix + k1 + "_";
    CancelSuffix(head + c1, head + c2, ".png");
    CancelPrefix(head, c1, c2);
  }

  /** The four failure kinds already differ in their first letter. */
  lemma KindsDiffer(o1: Outcome, o2: Outcome)
    requires o1 != Confirmed && o2 != Confirmed
    requires FailureKind(o1)[0] == FailureKind(o2)[0]
    ensures o1 == o2
  {
  }

  lemma CancelPrefix(h: string, a: string, b: string)
    requires h + a == h + b
    ensures a == b
  {
    assert a == (h + a)[|h|..];
    assert b == (h + b)[|h|..];
  }

  lemma CancelSuffix(a: string, b: string, t: string)
    requires a + t == b + t
    ensures a == b
  {
    assert a == (a + t)[..|a|];
    assert b == (b + t)[..|b|];
  }
}
