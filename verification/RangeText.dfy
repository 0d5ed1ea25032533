/** pkg/compatibility range text: the tokens of a range, printed and read back. */
module RangeText {
  import opened Wrappers
  import opened Text
  import opened Decimal
  import opened Semver
  import opened SemverText

  predicate IsOperator(s: string) {
    s == "=" || s == ">" || s == ">=" || s == "<" || s == "<="
  }

  function Token(c: Comparator): string {
    c.operator + Print(c.version)
  }

  function Tokens(r: Range): (tokens: seq<string>)
    ensures |tokens| == |r| && forall i :: 0 <= i < |r| ==> tokens[i] == Token(r[i])
  {
    seq(|r|, i requires 0 <= i < |r| => Token(r[i]))
  }

  predicate Printable(r: Range) {
    forall i :: 0 <= i < |r| ==> IsOperator(r[i].operator) && ValidVersion(r[i].version)
  }

  // ----- One token.

  lemma OperatorRead(operator: string, text: string)
    requires IsOperator(operator) && text != "" && IsDigit(text[0]) && Trimmed(text)
    ensures OperatorOf(operator + text) == operator && VersionTextOf(operator + text) == text
  {
    var token := operator + text;
    assert token[|operator|..] == text && token[|operator|] == text[0];
    assert operator <= token;
  }

  /** Each of the five operators in front of a version is read as itself. */
  lemma TokenReads(c: Comparator)
    requires IsOperator(c.operator) && ValidVersion(c.version)
    ensures TokenOf(Token(c)) == Some(c)
  {
    PrintEnds(c.version);
    ParseOfPrint(c.version);
    OperatorRead(c.operator, Print(c.version));
  }

  lemma NoOperatorRead(text: string)
    requires text != "" && IsDigit(text[0])
    ensures OperatorOf(text) == "=" && VersionTextOf(text) == text
  {
  }

  /** A version on its own asks for that version. */
  lemma BareTokenReads(v: Version)
    requires ValidVersion(v)
    ensures TokenOf(Print(v)) == Some(Comparator("=", v))
  {
    PrintEnds(v);
    ParseOfPrint(v);
    NoOperatorRead(Print(v));
  }

  lemma PrintLacks(v: Version, c: char)
    requires ValidVersion(v) && !IdentifierChar(c) && c != '.' && c != '+'
    ensures c !in Print(v)
  {
    DigitsLack(Itoa(v.major), c);
    DigitsLack(Itoa(v.minor), c);
    DigitsLack(Itoa(v.patch), c);
    IdentifiersLack(v.prerelease, true, c);
    IdentifiersLack(v.build, false, c);
    JoinLacks(v.prerelease, '.', c);
    JoinLacks(v.build, '.', c);
  }

  lemma IdentifiersLack(ids: seq<string>, prerelease: bool, c: char)
    requires ValidIdentifiers(ids, prerelease) && !IdentifierChar(c)
    ensures Without(ids, c)
  {
    forall i | 0 <= i < |ids| ensures c !in ids[i] {
      assert ValidIdentifier(ids[i], prerelease);
    }
  }

  /** A word of a range text: nothing in it separates. */
  predicate Word(s: string) {
    SpaceFree(s) && ',' !in s
  }

  lemma PrintIsWord(v: Version)
    requires ValidVersion(v)
    ensures Word(Print(v))
  {
    PrintEnds(v);
    PrintLacks(v, ',');
    var text := Print(v);
    forall i | 0 <= i < |text| ensures !IsSpace(text[i]) {
      if IsSpace(text[i]) {
        PrintLacks(v, text[i]);
        assert false;
      }
    }
  }

  lemma WordAfterOperator(operator: string, text: string)
    requires IsOperator(operator) && Word(text)
    ensures Word(operator + text)
  {
  }

  lemma TokenIsWord(c: Comparator)
    requires IsOperator(c.operator) && ValidVersion(c.version)
    ensures Word(Token(c))
  {
    PrintIsWord(c.version);
    WordAfterOperator(c.operator, Print(c.version));
  }

  // ----- Words, joined and read.

  lemma {:induction false} FieldsOfJoin(words: seq<string>)
    requires words != [] && forall i :: 0 <= i < |words| ==> SpaceFree(words[i])
    ensures Fields(Join(words, ' ')) == words
    decreases |words|
  {
    var word := words[0];
    if |words| == 1 {
      OneField(word, "");
      assert word + "" == word;
    } else {
      var rest := Join(words[1..], ' ');
      FieldsOfJoin(words[1..]);
      OneField(word, " " + rest);
      assert Join(words, ' ') == word + (" " + rest) && (" " + rest)[1..] == rest;
    }
  }

  lemma {:induction false} OneField(word: string, rest: string)
    requires SpaceFree(word) && (rest != "" ==> IsSpace(rest[0]))
    ensures Fields(word + rest) == [word] + Fields(rest)
  {
    WordThenSpace(word, rest);
    var s := word + rest;
    assert s[0] == word[0] && s[..|word|] == word && s[|word|..] == rest;
  }

  lemma {:induction false} ReplaceInJoin(parts: seq<string>, sep: char, other: char)
    requires Without(parts, ',')
    requires (sep == ',' && other == ' ') || (sep == other == ' ')
    ensures ReplaceAll(Join(parts, sep), ',', ' ') == Join(parts, other)
    decreases |parts|
  {
    if |parts| == 1 {
      KeepsText(parts[0]);
    } else if |parts| > 1 {
      var rest := Join(parts[1..], sep);
      ReplaceInJoin(parts[1..], sep, other);
      KeepsText(parts[0]);
      ReplaceConcat(parts[0] + [sep], rest);
      ReplaceConcat(parts[0], [sep]);
    }
  }

  lemma KeepsText(s: string)
    requires ',' !in s
    ensures ReplaceAll(s, ',', ' ') == s
  {
  }

  lemma ReplaceConcat(a: string, b: string)
    ensures ReplaceAll(a + b, ',', ' ') == ReplaceAll(a, ',', ' ') + ReplaceAll(b, ',', ' ')
  {
  }

  /** Words joined by spaces or by commas are read one by one. */
  lemma {:induction false} WordsRead(parse: string -> Option<Comparator>, words: seq<string>, sep: char)
    requires words != [] && (sep == ' ' || sep == ',')
    requires forall i :: 0 <= i < |words| ==> Word(words[i])
    ensures ParseRangeWith(parse, Join(words, sep)) == ParseTokens(parse, words)
  {
    forall i | 0 <= i < |words| ensures words[i] != "" && Trimmed(words[i]) {
      assert Word(words[i]);
    }
    JoinTrimmed(words, sep);
    JoinTrimmed(words, ' ');
    ReplaceInJoin(words, sep, ' ');
    FieldsOfJoin(words);
  }

  /** The tokens all read exactly when the range does, and give its comparators in order. */
  lemma {:induction false} TokensReadIff(parse: string -> Option<Comparator>, tokens: seq<string>)
    ensures ParseTokens(parse, tokens).Some? <==> forall i :: 0 <= i < |tokens| ==> parse(tokens[i]).Some?
    ensures ParseTokens(parse, tokens).Some? ==>
              var r := ParseTokens(parse, tokens).value;
              |r| == |tokens| && forall i :: 0 <= i < |tokens| ==> parse(tokens[i]) == Some(r[i])
    decreases |tokens|
  {
    if tokens != [] {
      TokensReadIff(parse, tokens[..|tokens| - 1]);
    }
  }

  lemma {:induction false} WordsReadAs(parse: string -> Option<Comparator>, words: seq<string>, sep: char, r: Range)
    requires r != [] && |words| == |r| && (sep == ' ' || sep == ',')
    requires forall i :: 0 <= i < |r| ==> Word(words[i]) && parse(words[i]) == Some(r[i])
    ensures ParseRangeWith(parse, Join(words, sep)) == Some(r)
  {
    WordsRead(parse, words, sep);
    TokensReadIff(parse, words);
    forall i | 0 <= i < |r| ensures parse(words[i]).Some? && parse(words[i]).value == r[i] {
      assert parse(words[i]) == Some(r[i]);
    }
    var read := ParseTokens(parse, words).value;
    assert read == r;
  }

  /** A printed range reads back, whatever its operators and versions, with spaces or commas between. */
  lemma {:induction false} RangeRoundTrip(r: Range, sep: char)
    requires r != [] && Printable(r) && (sep == ' ' || sep == ',')
    ensures ParseRange(Join(Tokens(r), sep)) == Some(r)
  {
    forall i | 0 <= i < |r| ensures Word(Tokens(r)[i]) && TokenOf(Tokens(r)[i]) == Some(r[i]) {
      TokenIsWord(r[i]);
      TokenReads(r[i]);
    }
    WordsReadAs(TokenOf, Tokens(r), sep, r);
  }
}
