/**
 * version.go and pkg/compatibility: the range a release series is compatible with, and when a
 * CLI and a platform accept each other.
 */
module Compatibility {
  import opened Wrappers
  import opened Text
  import opened Decimal
  import opened Semver
  import opened SemverText
  import opened RangeText

  /** strings.Cut: the text before the first `c`, and the text after it when there is one. */
  function Cut(s: string, c: char): (string, Option<string>) {
    var n := IndexOf(s, c);
    if n == |s| then (s, None) else (s[..n], Some(s[n + 1..]))
  }

  /** The major.minor part of a version. */
  function Series(version: string): string {
    var (major, rest) := Cut(version, '.');
    if rest.None? then version else major + "." + Cut(rest.value, '.').0
  }

  function BaselineVersion(version: string): string {
    Series(version) + ".0"
  }

  const WRAPPED := "-9223372036854775808"

  function NextMajor(version: string): string {
    Bump(Cut(Series(version), '.').0)
  }

  /** Adding one to the largest int wraps to the smallest. */
  function Bump(major: string): string {
    match Atoi(TrimSpace(major))
    case None => major
    case Some(n) => if n == MAX_INT then WRAPPED else Itoa(n + 1)
  }

  /** What every artifact of a series accepts. */
  function CompatibilityRange(version: string): string {
    ">=" + BaselineVersion(version) + " <" + NextMajor(version) + ".0.0"
  }

  datatype Platform = Platform(productVersion: string, apiVersion: string, cliCompatibility: string)

  datatype Cli = Cli(version: string, apiVersion: string, platformCompatibility: string)

  datatype Refusal =
    | ApiMismatch | BadCliVersion | BadPlatformVersion | BadPlatformRange | BadCliRange
    | PlatformUnsupported | CliUnsupported

  predicate Development(version: string) {
    ToLower(TrimSpace(version)) in ["", "dev", "unknown"]
  }

  /** None is acceptance; otherwise the first refusal of the chain. */
  function ValidatePlatformForCLI(platform: Platform, cli: Cli): Option<Refusal> {
    FirstRefusal(
      TrimSpace(platform.apiVersion) == TrimSpace(cli.apiVersion),
      Development(cli.version) || Development(platform.productVersion),
      ParseVersion(cli.version), ParseVersion(platform.productVersion),
      ParseRange(cli.platformCompatibility), ParseRange(platform.cliCompatibility))
  }

  /** The chain over what each text parses to: versions first, then each side against the other's range. */
  function FirstRefusal(sameApi: bool, development: bool, cli: Option<Version>, platform: Option<Version>,
                        platforms: Option<Range>, clis: Option<Range>): Option<Refusal> {
    if !sameApi then Some(ApiMismatch)
    else if development then None
    else if cli.None? then Some(BadCliVersion)
    else if platform.None? then Some(BadPlatformVersion)
    else if platforms.None? then Some(BadPlatformRange)
    else if !InRange(platforms.value, platform.value) then Some(PlatformUnsupported)
    else if clis.None? then Some(BadCliRange)
    else if !InRange(clis.value, cli.value) then Some(CliUnsupported)
    else None
  }

  /** A build that is not a release: blank, dev or unknown, in any case. */
  ghost predicate Unreleased(version: string) {
    var text := ToLower(TrimSpace(version));
    text == "" || text == "dev" || text == "unknown"
  }

  ghost predicate Admits(range: Option<Range>, version: Option<Version>) {
    range.Some? && version.Some? && InRange(range.value, version.value)
  }

  lemma RefusalMeans(sameApi: bool, development: bool, cli: Option<Version>, platform: Option<Version>,
                     platforms: Option<Range>, clis: Option<Range>)
    ensures var refusal := FirstRefusal(sameApi, development, cli, platform, platforms, clis);
            && (refusal == None <==> sameApi && (development || (Admits(platforms, platform) && Admits(clis, cli))))
            && (refusal == Some(ApiMismatch) <==> !sameApi)
            && (refusal == Some(BadCliVersion) ==> cli == None)
            && (refusal == Some(BadPlatformVersion) ==> platform == None)
            && (refusal == Some(BadPlatformRange) ==> platforms == None)
            && (refusal == Some(BadCliRange) ==> clis == None)
            && (refusal == Some(PlatformUnsupported) ==> !Admits(platforms, platform))
            && (refusal == Some(CliUnsupported) ==> !Admits(clis, cli))
  {
  }

  lemma UnreleasedIsDevelopment(version: string)
    ensures Development(version) <==> Unreleased(version)
  {
  }

  /**
   * A CLI accepts a platform exactly when the API versions agree and one of the two is no release, or
   * each one's range admits the other's version.
   */
  lemma AcceptsIff(platform: Platform, cli: Cli)
    ensures ValidatePlatformForCLI(platform, cli) == None
       <==> && TrimSpace(platform.apiVersion) == TrimSpace(cli.apiVersion)
            && (Unreleased(cli.version) || Unreleased(platform.productVersion)
                || (Admits(ParseRange(cli.platformCompatibility), ParseVersion(platform.productVersion))
                    && Admits(ParseRange(platform.cliCompatibility), ParseVersion(cli.version))))
    ensures ValidatePlatformForCLI(platform, cli) == Some(ApiMismatch)
       <==> TrimSpace(platform.apiVersion) != TrimSpace(cli.apiVersion)
  {
    UnreleasedIsDevelopment(cli.version);
    UnreleasedIsDevelopment(platform.productVersion);
    RefusalMeans(
      TrimSpace(platform.apiVersion) == TrimSpace(cli.apiVersion),
      Development(cli.version) || Development(platform.productVersion),
      ParseVersion(cli.version), ParseVersion(platform.productVersion),
      ParseRange(cli.platformCompatibility), ParseRange(platform.cliCompatibility));
  }

  lemma SeriesWithoutDot(version: string)
    requires '.' !in version
    ensures BaselineVersion(version) == version + ".0"
  {
    IndexOfNone(version, '.');
  }

  // ----- The derived range, read back from its text.

  function Baseline(v: Version): Version {
    Version(v.major, v.minor, 0, [], [])
  }

  function Ceiling(v: Version): Version {
    Version(v.major + 1, 0, 0, [], [])
  }

  function DerivedRange(v: Version): Range {
    [Comparator(">=", Baseline(v)), Comparator("<", Ceiling(v))]
  }

  lemma CutAt(head: string, c: char, tail: string)
    requires c !in head
    ensures Cut(head + [c] + tail, c) == (head, Some(tail))
  {
    IndexOfAt(head, c, tail);
    var s := head + [c] + tail;
    assert s[..|head|] == head && s[|head| + 1..] == tail;
  }

  /** What Print puts after the minor number. */
  function AfterMinor(v: Version): string {
    Itoa(v.patch) + PrereleaseTail(v) + BuildTail(v)
  }

  function PrereleaseTail(v: Version): string {
    if v.prerelease == [] then "" else "-" + Join(v.prerelease, '.')
  }

  function BuildTail(v: Version): string {
    if v.build == [] then "" else "+" + Join(v.build, '.')
  }

  lemma Regroup(major: string, minor: string, patch: string, pre: string, build: string)
    ensures major + "." + minor + "." + patch + pre + build
         == major + "." + (minor + "." + (patch + pre + build))
  {
  }

  lemma PrintFromFront(v: Version)
    ensures Print(v) == Itoa(v.major) + "." + (Itoa(v.minor) + "." + AfterMinor(v))
  {
    var pre, build := PrereleaseTail(v), BuildTail(v);
    assert CoreAndPrerelease(v) == Core(v) + pre && Print(v) == CoreAndPrerelease(v) + build;
    Regroup(Itoa(v.major), Itoa(v.minor), Itoa(v.patch), pre, build);
  }

  lemma SeriesOfPrint(v: Version)
    ensures Series(Print(v)) == Itoa(v.major) + "." + Itoa(v.minor)
  {
    PrintFromFront(v);
    DigitsLack(Itoa(v.major), '.');
    DigitsLack(Itoa(v.minor), '.');
    CutAt(Itoa(v.major), '.', Itoa(v.minor) + "." + AfterMinor(v));
    CutAt(Itoa(v.minor), '.', AfterMinor(v));
  }

  lemma BaselineText(v: Version)
    ensures BaselineVersion(Print(v)) == Print(Baseline(v))
  {
    SeriesOfPrint(v);
    assert Itoa(0) == "0";
  }

  lemma NumericTrimmed(s: string)
    requires Numeric(s)
    ensures TrimSpace(s) == s
  {
    assert IsDigit(s[0]) && IsDigit(s[|s| - 1]);
  }

  lemma MajorOfPrint(v: Version)
    ensures Cut(Series(Print(v)), '.').0 == Itoa(v.major)
  {
    SeriesOfPrint(v);
    DigitsLack(Itoa(v.major), '.');
    CutAt(Itoa(v.major), '.', Itoa(v.minor));
  }

  lemma BumpDigits(n: nat)
    requires n <= MAX_INT
    ensures Bump(Itoa(n)) == if n == MAX_INT then WRAPPED else Itoa(n + 1)
  {
    NumericTrimmed(Itoa(n));
  }

  lemma CeilingText(v: Version)
    requires v.major < MAX_INT
    ensures NextMajor(Print(v)) + ".0.0" == Print(Ceiling(v))
  {
    MajorOfPrint(v);
    BumpDigits(v.major);
    CeilingPrints(v);
  }

  lemma CeilingPrints(v: Version)
    ensures Print(Ceiling(v)) == Itoa(v.major + 1) + ".0.0"
  {
    assert Itoa(0) == "0";
  }

  lemma DerivedText(v: Version, major: string)
    ensures Join([">=" + Print(Baseline(v)), "<" + (major + ".0.0")], ' ')
         == ">=" + Print(Baseline(v)) + " <" + major + ".0.0"
  {
    var words := [">=" + Print(Baseline(v)), "<" + (major + ".0.0")];
    assert words[1..] == [words[1]] && Join(words[1..], ' ') == words[1];
  }

  lemma DerivedTextJoins(v: Version)
    requires v.major < MAX_INT
    ensures CompatibilityRange(Print(v)) == Join(Tokens(DerivedRange(v)), ' ')
  {
    BaselineText(v);
    CeilingText(v);
    DerivedText(v, NextMajor(Print(v)));
    DerivedTokens(v);
  }

  /** The text a release derives parses to the range from its series baseline to the next major. */
  lemma DerivedRangeParses(v: Version)
    requires ValidVersion(v) && v.major < MAX_INT
    ensures ParseRange(CompatibilityRange(Print(v))) == Some(DerivedRange(v))
  {
    DerivedTextJoins(v);
    DerivedIsPrintable(v);
    RangeRoundTrip(DerivedRange(v), ' ');
  }

  lemma DerivedIsPrintable(v: Version)
    requires ValidVersion(v) && v.major < MAX_INT
    ensures Printable(DerivedRange(v))
  {
    assert ValidVersion(Baseline(v)) && ValidVersion(Ceiling(v));
  }

  lemma DerivedTokens(v: Version)
    ensures Tokens(DerivedRange(v)) == [">=" + Print(Baseline(v)), "<" + Print(Ceiling(v))]
  {
    assert Token(DerivedRange(v)[0]) == ">=" + Print(Baseline(v));
    assert Token(DerivedRange(v)[1]) == "<" + Print(Ceiling(v));
  }

  // ----- Who accepts whom.

  /** A prerelease of the baseline itself is below the baseline. */
  predicate BelowBaseline(v: Version) {
    v.patch == 0 && v.prerelease != []
  }

  /**
   * A version lies in the range of its own series unless it is a prerelease of the baseline:
   * the one kind of release that does not accept itself.
   */
  lemma OwnRangeIff(v: Version)
    ensures InRange(DerivedRange(v), v) <==> !BelowBaseline(v)
  {
    InDerivedRange(v, v);
  }

  predicate LexAtLeast(v: Version, w: Version) {
    v.major > w.major || (v.major == w.major && v.minor >= w.minor)
  }

  lemma InDerivedRange(v: Version, w: Version)
    ensures InRange(DerivedRange(v), w) ==> LexAtLeast(w, v)
    ensures w.major == v.major && w.minor == v.minor ==> (InRange(DerivedRange(v), w) <==> !BelowBaseline(w))
  {
    var r := DerivedRange(v);
    assert InRange(r, w) <==> Precedence(w, Baseline(v)) >= 0 && Precedence(w, Ceiling(v)) < 0 by {
      assert r[0] in r && r[1] in r;
    }
  }

  /** An artifact of a release: it carries the printed version and the derived range. */
  function PlatformOf(v: Version, api: string): Platform {
    Platform(Print(v), api, CompatibilityRange(Print(v)))
  }

  function CliOf(v: Version, api: string): Cli {
    Cli(Print(v), api, CompatibilityRange(Print(v)))
  }

  lemma PrintIsNotDevelopment(v: Version)
    requires ValidVersion(v)
    ensures !Development(Print(v))
  {
    PrintIsStripped(v);
    var text := Print(v);
    assert text[0] == Itoa(v.major)[0] && IsDigit(text[0]);
    assert !IsSpace(text[0]);
    DigitFirst(text);
  }

  lemma DigitFirst(text: string)
    requires text != "" && IsDigit(text[0])
    ensures !Development(text)
  {
    var trimmed := TrimSpace(text);
    assert TrimLeft(text) == text;
    assert trimmed != "" && trimmed[0] == text[0] by {
      TrimRightKeepsHead(text);
    }
    assert ToLower(trimmed)[0] == text[0];
  }

  lemma {:induction false} TrimRightKeepsHead(s: string)
    requires s != "" && !IsSpace(s[0])
    ensures TrimRight(s) != "" && TrimRight(s)[0] == s[0]
    decreases |s|
  {
    if IsSpace(s[|s| - 1]) {
      TrimRightKeepsHead(s[..|s| - 1]);
    }
  }

  /**
   * With equal API versions and derived ranges, a CLI and a platform accept each other exactly
   * when they are of the same major.minor series, short of the largest major number, and neither
   * is a prerelease of its baseline, whatever their patches: far narrower than the range up to the
   * next major either one states.
   */
  lemma AcceptEachOtherIff(platform: Version, cli: Version, api: string)
    requires ValidVersion(platform) && ValidVersion(cli)
    ensures ValidatePlatformForCLI(PlatformOf(platform, api), CliOf(cli, api)) == None
       <==> && platform.major == cli.major < MAX_INT && platform.minor == cli.minor
            && !BelowBaseline(platform) && !BelowBaseline(cli)
  {
    if platform.major < MAX_INT && cli.major < MAX_INT {
      AcceptWithinRanges(platform, cli, api);
    } else {
      NoRangeNoAcceptance(platform, cli, api);
    }
  }

  lemma {:induction false} NoRangeNoAcceptance(platform: Version, cli: Version, api: string)
    requires ValidVersion(platform) && ValidVersion(cli) && (platform.major == MAX_INT || cli.major == MAX_INT)
    ensures ValidatePlatformForCLI(PlatformOf(platform, api), CliOf(cli, api)) != None
  {
    PrintIsNotDevelopment(platform);
    PrintIsNotDevelopment(cli);
    if platform.major == MAX_INT {
      LargestMajorHasNoRange(platform);
    } else {
      LargestMajorHasNoRange(cli);
    }
    RefusedWithoutRange(true, ParseVersion(Print(cli)), ParseVersion(Print(platform)),
                        ParseRange(CompatibilityRange(Print(cli))), ParseRange(CompatibilityRange(Print(platform))));
  }

  lemma RefusedWithoutRange(sameApi: bool, cli: Option<Version>, platform: Option<Version>,
                            platforms: Option<Range>, clis: Option<Range>)
    requires platforms.None? || clis.None?
    ensures FirstRefusal(sameApi, false, cli, platform, platforms, clis) != None
  {
  }

  lemma {:induction false} AcceptWithinRanges(platform: Version, cli: Version, api: string)
    requires ValidVersion(platform) && ValidVersion(cli) && platform.major < MAX_INT && cli.major < MAX_INT
    ensures ValidatePlatformForCLI(PlatformOf(platform, api), CliOf(cli, api)) == None
       <==> && platform.major == cli.major && platform.minor == cli.minor
            && !BelowBaseline(platform) && !BelowBaseline(cli)
  {
    PrintIsNotDevelopment(platform);
    PrintIsNotDevelopment(cli);
    ParseOfPrint(platform);
    ParseOfPrint(cli);
    DerivedRangeParses(platform);
    DerivedRangeParses(cli);
    InDerivedRange(cli, platform);
    InDerivedRange(platform, cli);
  }

  lemma WrappedIsWord()
    ensures var text := WRAPPED + ".0.0"; Word("<" + text) && '+' !in text && text[0] == '-'
  {
    var text := WRAPPED + ".0.0";
    forall i | 0 <= i < |text| ensures IsDigit(text[i]) || text[i] in "-." {}
  }

  lemma MinusToken(text: string)
    requires text != "" && text[0] == '-' && !IsSpace(text[|text| - 1]) && '+' !in text
    ensures TokenOf("<" + text) == None
  {
    var token := "<" + text;
    assert token[1..] == text && token[1] == '-';
    assert OperatorOf(token) == "<" && VersionTextOf(token) == text;
  }

  lemma WrappedText(v: Version)
    requires v.major == MAX_INT
    ensures CompatibilityRange(Print(v)) == Join([">=" + Print(Baseline(v)), "<" + (WRAPPED + ".0.0")], ' ')
  {
    BaselineText(v);
    MajorOfPrint(v);
    BumpDigits(v.major);
    DerivedText(v, WRAPPED);
  }

  lemma {:induction false} SecondWordBad(parse: string -> Option<Comparator>, first: string, second: string)
    requires Word(first) && Word(second) && parse(second) == None
    ensures ParseRangeWith(parse, Join([first, second], ' ')) == None
  {
    var words := [first, second];
    WordsRead(parse, words, ' ');
    TokensReadIff(parse, words);
    assert words[1] == second;
  }

  lemma BaselineIsWord(v: Version)
    requires ValidVersion(v)
    ensures Word(">=" + Print(Baseline(v)))
  {
    TokenIsWord(Comparator(">=", Baseline(v)));
  }

  lemma WrappedTokenIsBad()
    ensures Word("<" + (WRAPPED + ".0.0")) && TokenOf("<" + (WRAPPED + ".0.0")) == None
  {
    WrappedIsWord();
    MinusToken(WRAPPED + ".0.0");
  }

  /** At the largest major number the sum wraps and the derived range does not parse. */
  lemma LargestMajorHasNoRange(v: Version)
    requires ValidVersion(v) && v.major == MAX_INT
    ensures ParseRange(CompatibilityRange(Print(v))) == None
  {
    WrappedText(v);
    BaselineIsWord(v);
    WrappedTokenIsBad();
    SecondWordBad(TokenOf, ">=" + Print(Baseline(v)), "<" + (WRAPPED + ".0.0"));
  }
}
