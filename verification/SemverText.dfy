/** pkg/compatibility version and range text: parsing and printing (SemVer 2.0.0 sections 2, 9, 10). */
module SemverText {
  import opened Wrappers
  import opened Text
  import opened Decimal
  import opened Semver

  predicate IdentifierChar(c: char) {
    '0' <= c <= '9' || 'A' <= c <= 'Z' || 'a' <= c <= 'z' || c == '-'
  }

  predicate ValidIdentifier(s: string, prerelease: bool) {
    && s != "" && (forall i :: 0 <= i < |s| ==> IdentifierChar(s[i]))
    && !(prerelease && Numeric(s) && |s| > 1 && s[0] == '0')
  }

  predicate ValidIdentifiers(ids: seq<string>, prerelease: bool) {
    forall i :: 0 <= i < |ids| ==> ValidIdentifier(ids[i], prerelease)
  }

  function ParseIdentifiers(raw: string, prerelease: bool): Option<seq<string>> {
    var ids := Split(raw, '.');
    if ValidIdentifiers(ids, prerelease) then Some(ids) else None
  }

  /** One numeric part. A sign cannot occur in it: the text was cut at both `+` and `-` before. */
  function ParsePart(part: string): Option<nat> {
    if part == "" || (|part| > 1 && part[0] == '0') then None else Atoi(part)
  }

  /** What surrounds a version is taken off first: space, one leading v, space again. */
  function Strip(raw: string): string {
    TrimSpace(TrimPrefix(TrimSpace(raw), "v"))
  }

  /** The version the pieces of a text make; None when one of them is malformed. */
  function Assemble(parts: seq<string>, prerelease: Option<seq<string>>, build: Option<seq<string>>): Option<Version> {
    if |parts| != 3 || ParsePart(parts[0]).None? || ParsePart(parts[1]).None? || ParsePart(parts[2]).None?
       || prerelease.None? || build.None?
    then None
    else Some(Version(ParsePart(parts[0]).value, ParsePart(parts[1]).value, ParsePart(parts[2]).value,
                      prerelease.value, build.value))
  }

  /** None stands for every parse error. */
  function ParseVersion(raw: string): Option<Version> {
    var text := Strip(raw);
    if text == "" then None
    else
      var coreAndBuild := SplitOnce(text, '+');
      var coreAndPrerelease := SplitOnce(coreAndBuild[0], '-');
      Assemble(
        Split(coreAndPrerelease[0], '.'),
        if |coreAndPrerelease| == 2 then ParseIdentifiers(coreAndPrerelease[1], true) else Some([]),
        if |coreAndBuild| == 2 then ParseIdentifiers(coreAndBuild[1], false) else Some([]))
  }

  function Core(v: Version): string {
    Itoa(v.major) + "." + Itoa(v.minor) + "." + Itoa(v.patch)
  }

  function CoreAndPrerelease(v: Version): string {
    if v.prerelease == [] then Core(v) else Core(v) + "-" + Join(v.prerelease, '.')
  }

  /** Version.String. */
  function Print(v: Version): string {
    if v.build == [] then CoreAndPrerelease(v) else CoreAndPrerelease(v) + "+" + Join(v.build, '.')
  }

  predicate ValidVersion(v: Version) {
    && v.major <= MAX_INT && v.minor <= MAX_INT && v.patch <= MAX_INT
    && ValidIdentifiers(v.prerelease, true) && ValidIdentifiers(v.build, false)
  }

  /** The loops of ParseVersion and parseIdentifiers, with their early returns. */
  method ParseIdentifierList(raw: string, prerelease: bool) returns (ids: Option<seq<string>>)
    ensures ids == ParseIdentifiers(raw, prerelease)
  {
    var parts := Split(raw, '.');
    for i := 0 to |parts|
      invariant forall k :: 0 <= k < i ==> ValidIdentifier(parts[k], prerelease)
    {
      if !ValidIdentifier(parts[i], prerelease) {
        return None;
      }
    }
    return Some(parts);
  }

  method Parse(raw: string) returns (v: Option<Version>)
    ensures v == ParseVersion(raw)
  {
    var text := Strip(raw);
    if text == "" {
      return None;
    }
    var coreAndBuild := SplitOnce(text, '+');
    var coreAndPrerelease := SplitOnce(coreAndBuild[0], '-');
    var parts := Split(coreAndPrerelease[0], '.');
    if |parts| != 3 {
      return None;
    }
    var numbers: seq<nat> := [];
    for i := 0 to |parts|
      invariant |numbers| == i && forall k :: 0 <= k < i ==> ParsePart(parts[k]) == Some(numbers[k])
    {
      var value := ParsePart(parts[i]);
      if value.None? {
        assert i == 0 || i == 1 || i == 2;
        return None;
      }
      numbers := numbers + [value.value];
    }
    var prerelease: Option<seq<string>>, build: Option<seq<string>> := Some([]), Some([]);
    if |coreAndPrerelease| == 2 {
      prerelease := ParseIdentifierList(coreAndPrerelease[1], true);
      if prerelease.None? {
        return None;
      }
    }
    if |coreAndBuild| == 2 {
      build := ParseIdentifierList(coreAndBuild[1], false);
      if build.None? {
        return None;
      }
    }
    return Some(Version(numbers[0], numbers[1], numbers[2], prerelease.value, build.value));
  }

  // ----- Printing what was parsed.

  lemma ParsedPart(part: string)
    requires ParsePart(part).Some?
    ensures Itoa(ParsePart(part).value) == part && ParsePart(part).value <= MAX_INT
  {
    ItoaOfValue(part);
  }

  lemma {:induction false} JoinThree(parts: seq<string>)
    requires |parts| == 3
    ensures Join(parts, '.') == parts[0] + "." + parts[1] + "." + parts[2]
  {
    assert parts[1..][1..] == [parts[2]];
    assert Join(parts[1..], '.') == parts[1] + "." + parts[2];
  }

  lemma ParsedIsValid(raw: string)
    requires ParseVersion(raw).Some?
    ensures ValidVersion(ParseVersion(raw).value)
  {
    var parts := Split(SplitOnce(SplitOnce(Strip(raw), '+')[0], '-')[0], '.');
    ParsedPart(parts[0]);
    ParsedPart(parts[1]);
    ParsedPart(parts[2]);
  }

  /** A piece after its separator, if there is one. */
  function After(c: char, piece: Option<string>): string {
    if piece.None? then "" else [c] + piece.value
  }

  function PieceIdentifiers(piece: Option<string>, prerelease: bool): Option<seq<string>> {
    if piece.None? then Some([]) else ParseIdentifiers(piece.value, prerelease)
  }

  /** The identifiers are those of a piece. */
  predicate Spells(ids: seq<string>, piece: Option<string>) {
    (ids == [] <==> piece.None?) && (piece.Some? ==> Join(ids, '.') == piece.value)
  }

  lemma PieceJoins(piece: Option<string>, prerelease: bool)
    requires PieceIdentifiers(piece, prerelease).Some?
    ensures Spells(PieceIdentifiers(piece, prerelease).value, piece)
  {
    if piece.Some? {
      JoinOfSplit(piece.value, '.');
    }
  }

  lemma SpelledPrint(v: Version, prerelease: Option<string>, build: Option<string>)
    requires Spells(v.prerelease, prerelease) && Spells(v.build, build)
    ensures Print(v) == Core(v) + After('-', prerelease) + After('+', build)
  {
  }

  lemma {:induction false} AssembledPrints(core: string, prerelease: Option<string>, build: Option<string>, v: Version)
    requires Assemble(Split(core, '.'), PieceIdentifiers(prerelease, true), PieceIdentifiers(build, false)) == Some(v)
    ensures Print(v) == core + After('-', prerelease) + After('+', build)
  {
    assert Core(v) == core by {
      CoreOfParts(core);
    }
    PieceJoins(prerelease, true);
    PieceJoins(build, false);
    SpelledPrint(v, prerelease, build);
  }

  /** The second piece of a cut. */
  function Second(pieces: seq<string>): Option<string> {
    if |pieces| == 2 then Some(pieces[1]) else None
  }

  lemma CutJoins(s: string, c: char)
    ensures var parts := SplitOnce(s, c); s == parts[0] + After(c, Second(parts))
  {
    var n := IndexOf(s, c);
    assert n < |s| ==> s == s[..n] + ([c] + s[n + 1..]);
  }

  /** Printing gives back the accepted text character for character. */
  lemma PrintOfParse(raw: string)
    requires ParseVersion(raw).Some?
    ensures Print(ParseVersion(raw).value) == Strip(raw) && ValidVersion(ParseVersion(raw).value)
  {
    ParsedIsValid(raw);
    var coreAndBuild := SplitOnce(Strip(raw), '+');
    var coreAndPrerelease := SplitOnce(coreAndBuild[0], '-');
    CutJoins(Strip(raw), '+');
    CutJoins(coreAndBuild[0], '-');
    AssembledPrints(coreAndPrerelease[0], Second(coreAndPrerelease), Second(coreAndBuild), ParseVersion(raw).value);
  }

  lemma {:induction false} CoreOfParts(core: string)
    requires var parts := Split(core, '.');
             |parts| == 3 && forall i :: 0 <= i < 3 ==> ParsePart(parts[i]).Some?
    ensures var parts := Split(core, '.');
            core == Itoa(ParsePart(parts[0]).value) + "." + Itoa(ParsePart(parts[1]).value)
                    + "." + Itoa(ParsePart(parts[2]).value)
  {
    var parts := Split(core, '.');
    JoinOfSplit(core, '.');
    JoinThree(parts);
    ParsedPart(parts[0]);
    ParsedPart(parts[1]);
    ParsedPart(parts[2]);
  }

  // ----- Parsing what was printed.

  lemma DigitsLack(s: string, c: char)
    requires Numeric(s) && !IsDigit(c)
    ensures c !in s
  {
  }

  lemma {:induction false} JoinLacks(parts: seq<string>, sep: char, c: char)
    requires Without(parts, c) && c != sep
    ensures c !in Join(parts, sep)
    decreases |parts|
  {
    if |parts| > 1 {
      JoinLacks(parts[1..], sep, c);
    }
  }

  lemma SplitOnceAt(head: string, c: char, tail: string)
    requires c !in head
    ensures SplitOnce(head + [c] + tail, c) == [head, tail]
  {
    IndexOfAt(head, c, tail);
    var s := head + [c] + tail;
    assert s[..|head|] == head && s[|head| + 1..] == tail;
  }

  lemma CoreSplits(v: Version)
    ensures Split(Core(v), '.') == [Itoa(v.major), Itoa(v.minor), Itoa(v.patch)]
    ensures '+' !in Core(v) && '-' !in Core(v)
  {
    var parts := [Itoa(v.major), Itoa(v.minor), Itoa(v.patch)];
    forall i | 0 <= i < |parts| ensures '.' !in parts[i] && '+' !in parts[i] && '-' !in parts[i] {
      DigitsLack(parts[i], '.');
      DigitsLack(parts[i], '+');
      DigitsLack(parts[i], '-');
    }
    JoinThree(parts);
    SplitOfJoin(parts, '.');
    JoinLacks(parts, '.', '+');
    JoinLacks(parts, '.', '-');
  }

  lemma PrereleaseSplits(v: Version)
    requires ValidVersion(v)
    ensures '+' !in CoreAndPrerelease(v)
    ensures SplitOnce(CoreAndPrerelease(v), '-')
         == if v.prerelease == [] then [Core(v)] else [Core(v), Join(v.prerelease, '.')]
  {
    CoreSplits(v);
    if v.prerelease == [] {
      IndexOfNone(Core(v), '-');
    } else {
      SplitOnceAt(Core(v), '-', Join(v.prerelease, '.'));
      JoinLacks(v.prerelease, '.', '+');
    }
  }

  lemma PrintSplits(v: Version)
    requires ValidVersion(v)
    ensures SplitOnce(Print(v), '+')
         == if v.build == [] then [CoreAndPrerelease(v)] else [CoreAndPrerelease(v), Join(v.build, '.')]
  {
    PrereleaseSplits(v);
    if v.build == [] {
      IndexOfNone(CoreAndPrerelease(v), '+');
    } else {
      SplitOnceAt(CoreAndPrerelease(v), '+', Join(v.build, '.'));
    }
  }

  lemma {:induction false} IdentifiersReparse(ids: seq<string>, prerelease: bool)
    requires ids != [] && ValidIdentifiers(ids, prerelease)
    ensures ParseIdentifiers(Join(ids, '.'), prerelease) == Some(ids)
  {
    SplitOfJoin(ids, '.');
  }

  lemma {:induction false} PartReparses(n: nat)
    requires n <= MAX_INT
    ensures ParsePart(Itoa(n)) == Some(n)
  {
  }

  lemma IdentifierTrimmed(s: string, prerelease: bool)
    requires ValidIdentifier(s, prerelease)
    ensures Trimmed(s)
  {
    assert IdentifierChar(s[0]) && IdentifierChar(s[|s| - 1]);
  }

  lemma {:induction false} EndsLikeIdentifiers(head: string, ids: seq<string>, prerelease: bool)
    requires ids != [] && ValidIdentifiers(ids, prerelease)
    ensures var text := head + Join(ids, '.'); text != "" && !IsSpace(text[|text| - 1])
  {
    forall i | 0 <= i < |ids| ensures ids[i] != "" && Trimmed(ids[i]) {
      IdentifierTrimmed(ids[i], prerelease);
    }
    JoinTrimmed(ids, '.');
  }

  /** Printed text starts with a digit and ends in no space. */
  lemma PrintEnds(v: Version)
    requires ValidVersion(v)
    ensures Print(v) != "" && IsDigit(Print(v)[0]) && Trimmed(Print(v))
  {
    var text := Print(v);
    assert text[0] == Itoa(v.major)[0] && IsDigit(text[0]);
    assert !IsSpace(text[|text| - 1]) by {
      if v.build != [] {
        EndsLikeIdentifiers(CoreAndPrerelease(v) + "+", v.build, false);
      } else if v.prerelease != [] {
        EndsLikeIdentifiers(Core(v) + "-", v.prerelease, true);
      } else {
        var patch := Itoa(v.patch);
        assert text[|text| - 1] == patch[|patch| - 1];
      }
    }
  }

  /** So nothing is stripped from it. */
  lemma PrintIsStripped(v: Version)
    requires ValidVersion(v)
    ensures Strip(Print(v)) == Print(v) && Print(v) != ""
  {
    PrintEnds(v);
    assert !("v" <= Print(v));
  }

  // ----- The identifiers accepted, character by character.

  /** SemVer 2.0.0 sections 9 and 10: letters, digits and hyphens, and no leading zero in a prerelease number. */
  ghost predicate SpecIdentifier(s: string, prerelease: bool) {
    && s != ""
    && (forall c :: c in s ==> '0' <= c <= '9' || 'A' <= c <= 'Z' || 'a' <= c <= 'z' || c == '-')
    && (prerelease && (forall c :: c in s ==> '0' <= c <= '9') ==> |s| == 1 || s[0] != '0')
  }

  lemma IdentifierIffSpec(s: string, prerelease: bool)
    ensures ValidIdentifier(s, prerelease) <==> SpecIdentifier(s, prerelease)
  {
    assert forall i :: 0 <= i < |s| ==> s[i] in s;
  }

  ghost predicate AllSpec(ids: seq<string>, prerelease: bool) {
    forall i :: 0 <= i < |ids| ==> SpecIdentifier(ids[i], prerelease)
  }

  /** A dotted list is accepted exactly when all its pieces are identifiers, and then it is its pieces. */
  lemma {:induction false} IdentifiersParseIff(raw: string, prerelease: bool)
    ensures ParseIdentifiers(raw, prerelease)
         == if AllSpec(Split(raw, '.'), prerelease) then Some(Split(raw, '.')) else None
  {
    var ids := Split(raw, '.');
    forall i | 0 <= i < |ids| ensures ValidIdentifier(ids[i], prerelease) <==> SpecIdentifier(ids[i], prerelease) {
      IdentifierIffSpec(ids[i], prerelease);
    }
  }

  lemma {:induction false} ParseFromPieces(text: string, coreAndBuild: seq<string>, coreAndPrerelease: seq<string>)
    requires Strip(text) == text && text != ""
    requires SplitOnce(text, '+') == coreAndBuild && SplitOnce(coreAndBuild[0], '-') == coreAndPrerelease
    ensures ParseVersion(text)
         == Assemble(Split(coreAndPrerelease[0], '.'), PieceIdentifiers(Second(coreAndPrerelease), true),
                     PieceIdentifiers(Second(coreAndBuild), false))
  {
  }

  lemma {:induction false} PieceReparses(first: string, ids: seq<string>, prerelease: bool)
    requires ValidIdentifiers(ids, prerelease)
    ensures PieceIdentifiers(Second(if ids == [] then [first] else [first, Join(ids, '.')]), prerelease) == Some(ids)
  {
    if ids != [] {
      IdentifiersReparse(ids, prerelease);
    }
  }

  /** Parsing gives back every valid version, so the accepted texts are exactly the printed ones. */
  lemma ParseOfPrint(v: Version)
    requires ValidVersion(v)
    ensures ParseVersion(Print(v)) == Some(v)
  {
    PrintIsStripped(v);
    PrintSplits(v);
    PrereleaseSplits(v);
    CoreSplits(v);
    var coreAndBuild := SplitOnce(Print(v), '+');
    var coreAndPrerelease := SplitOnce(CoreAndPrerelease(v), '-');
    ParseFromPieces(Print(v), coreAndBuild, coreAndPrerelease);
    PieceReparses(CoreAndPrerelease(v), v.build, false);
    PieceReparses(Core(v), v.prerelease, true);
    AssembledBack(v);
  }

  /** Whatever is stripped off around a version makes no difference. */
  lemma SameStripSameVersion(raw: string, other: string)
    requires Strip(raw) == Strip(other)
    ensures ParseVersion(raw) == ParseVersion(other)
  {
  }

  lemma StripWrapped(text: string)
    requires text != "" && Trimmed(text) && text[0] != 'v'
    ensures Strip(text) == text && Strip("v" + text) == text && Strip(" " + text) == text
    ensures Strip(text + " ") == text && Strip(" v" + text + " ") == text
  {
    SpacesTrimmed(text);
    assert !("v" <= text);
    assert ("v" + text)[1..] == text && "v" <= "v" + text && Trimmed("v" + text);
    SpacesTrimmed("v" + text);
    assert " v" + text + " " == " " + ("v" + text) + " ";
  }

  /** White space around a version and one leading v are ignored. */
  lemma ParseOfWrapped(v: Version)
    requires ValidVersion(v)
    ensures ParseVersion("v" + Print(v)) == Some(v)
    ensures ParseVersion(" " + Print(v)) == Some(v) && ParseVersion(Print(v) + " ") == Some(v)
    ensures ParseVersion(" v" + Print(v) + " ") == Some(v)
  {
    var text := Print(v);
    PrintEnds(v);
    ParseOfPrint(v);
    StripWrapped(text);
    SameStripSameVersion("v" + text, text);
    SameStripSameVersion(" " + text, text);
    SameStripSameVersion(text + " ", text);
    SameStripSameVersion(" v" + text + " ", text);
  }

  lemma AssembledBack(v: Version)
    requires ValidVersion(v)
    ensures Assemble([Itoa(v.major), Itoa(v.minor), Itoa(v.patch)], Some(v.prerelease), Some(v.build)) == Some(v)
  {
    PartReparses(v.major);
    PartReparses(v.minor);
    PartReparses(v.patch);
  }

  // ----- Ranges.

  /** The longest front part without white space. */
  function WordLength(s: string): (n: nat)
    ensures n <= |s| && (s != "" && !IsSpace(s[0]) ==> n > 0)
  {
    if s == "" || IsSpace(s[0]) then 0 else 1 + WordLength(s[1..])
  }

  /** strings.Fields. */
  function Fields(s: string): seq<string>
    decreases |s|
  {
    if s == "" then []
    else if IsSpace(s[0]) then Fields(s[1..])
    else [s[..WordLength(s)]] + Fields(s[WordLength(s)..])
  }

  /** The operator at the front of a token, tried in the order of the candidate list. */
  function OperatorOf(token: string): string {
    if ">=" <= token then ">="
    else if "<=" <= token then "<="
    else if ">" <= token then ">"
    else if "<" <= token then "<"
    else "="
  }

  function VersionTextOf(token: string): string {
    if OperatorOf(token) <= token then TrimSpace(token[|OperatorOf(token)|..]) else token
  }

  function TokenOf(token: string): Option<Comparator> {
    match ParseVersion(VersionTextOf(token))
    case None => None
    case Some(version) => Some(Comparator(OperatorOf(token), version))
  }

  function Extended(range: Option<Range>, last: Option<Comparator>): Option<Range> {
    if range.Some? && last.Some? then Some(range.value + [last.value]) else None
  }

  /** All tokens of a range, with `parse` reading one; None when any is malformed. */
  function ParseTokens(parse: string -> Option<Comparator>, tokens: seq<string>): Option<Range>
    decreases |tokens|
  {
    if tokens == [] then Some([])
    else Extended(ParseTokens(parse, tokens[..|tokens| - 1]), parse(tokens[|tokens| - 1]))
  }

  function ParseRangeWith(parse: string -> Option<Comparator>, raw: string): Option<Range> {
    var normalized := ReplaceAll(TrimSpace(raw), ',', ' ');
    if normalized == "" then None else ParseTokens(parse, Fields(normalized))
  }

  function ParseRange(raw: string): Option<Range> {
    ParseRangeWith(TokenOf, raw)
  }

  /** The token loop of ParseRange. */
  method ReadRange(raw: string) returns (range: Option<Range>)
    ensures range == ParseRange(raw)
  {
    var normalized := ReplaceAll(TrimSpace(raw), ',', ' ');
    if normalized == "" {
      return None;
    }
    range := ReadTokens(TokenOf, Fields(normalized));
  }

  method ReadTokens(parse: string -> Option<Comparator>, tokens: seq<string>) returns (range: Option<Range>)
    ensures range == ParseTokens(parse, tokens)
  {
    var comparators: Range := [];
    for i := 0 to |tokens|
      invariant ParseTokens(parse, tokens[..i]) == Some(comparators)
    {
      assert tokens[..i + 1][..i] == tokens[..i];
      var comparator := parse(tokens[i]);
      if comparator.None? {
        FirstBadToken(parse, tokens, i + 1);
        return None;
      }
      comparators := comparators + [comparator.value];
    }
    assert tokens[..|tokens|] == tokens;
    return Some(comparators);
  }

  lemma {:induction false} FirstBadToken(parse: string -> Option<Comparator>, tokens: seq<string>, n: nat)
    requires n <= |tokens| && ParseTokens(parse, tokens[..n]).None?
    ensures ParseTokens(parse, tokens).None?
    decreases |tokens|
  {
    if n < |tokens| {
      assert tokens[..|tokens| - 1][..n] == tokens[..n];
      FirstBadToken(parse, tokens[..|tokens| - 1], n);
    } else {
      assert tokens[..n] == tokens;
    }
  }

  lemma {:induction false} WordThenSpace(word: string, rest: string)
    requires forall i :: 0 <= i < |word| ==> !IsSpace(word[i])
    requires rest != "" ==> IsSpace(rest[0])
    ensures WordLength(word + rest) == |word|
  {
    if word == "" {
      assert word + rest == rest;
    } else {
      assert (word + rest)[1..] == word[1..] + rest;
      WordThenSpace(word[1..], rest);
    }
  }

  predicate SpaceFree(s: string) {
    s != "" && forall i :: 0 <= i < |s| ==> !IsSpace(s[i])
  }
}
