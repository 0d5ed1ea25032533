/**
 * pkg/gittrigger MatchPattern: a glob compiled to a regular expression, against a direct reading
 * of the glob.
 */
module Glob {
  import opened Wrappers
  import opened Text
  import opened Regex
  import opened Utf8

  /** The bytes of a rune in UTF-8 (RFC 3629 section 3), each as the rune of that value. */
  function EncodeRune(c: char): (bytes: string)
    ensures 1 <= |bytes| <= 4 && (|bytes| == 1 <==> c < '\U{80}')
    ensures forall i :: 0 <= i < |bytes| ==> bytes[i] < '\U{100}'
    ensures c < '\U{80}' ==> bytes == [c]
  {
    var n := c as int;
    if n < 0x80 then [c]
    else if n < 0x800 then [(0xC0 + n / 0x40) as char, (0x80 + n % 0x40) as char]
    else if n < 0x10000 then
      [(0xE0 + n / 0x1000) as char, (0x80 + n / 0x40 % 0x40) as char, (0x80 + n % 0x40) as char]
    else
      [(0xF0 + n / 0x40000) as char, (0x80 + n / 0x1000 % 0x40) as char,
       (0x80 + n / 0x40 % 0x40) as char, (0x80 + n % 0x40) as char]
  }

  /** The low six bits of a continuation byte. */
  function SixBits(c: char): int {
    c as int % 0x40
  }

  /** Reading the bytes back, as RFC 3629 section 3 lays the bits out. */
  function RuneValue(bytes: string): int
    requires 1 <= |bytes| <= 4
  {
    if |bytes| == 1 then bytes[0] as int
    else if |bytes| == 2 then (bytes[0] as int - 0xC0) * 0x40 + SixBits(bytes[1])
    else if |bytes| == 3 then ((bytes[0] as int - 0xE0) * 0x40 + SixBits(bytes[1])) * 0x40 + SixBits(bytes[2])
    else (((bytes[0] as int - 0xF0) * 0x40 + SixBits(bytes[1])) * 0x40 + SixBits(bytes[2])) * 0x40 + SixBits(bytes[3])
  }

  lemma EncodedReadsBack(c: char)
    ensures RuneValue(EncodeRune(c)) == c as int
  {
    var n := c as int;
    Sextets(n, n / 0x40, n / 0x1000, n / 0x40000);
    var bytes := EncodeRune(c);
    if |bytes| == 4 {
      assert bytes[0] as int - 0xF0 == n / 0x40000 && SixBits(bytes[1]) == n / 0x1000 % 0x40;
      assert SixBits(bytes[2]) == n / 0x40 % 0x40 && SixBits(bytes[3]) == n % 0x40;
    } else if |bytes| == 3 {
      assert bytes[0] as int - 0xE0 == n / 0x1000;
      assert SixBits(bytes[1]) == n / 0x40 % 0x40 && SixBits(bytes[2]) == n % 0x40;
    }
  }

  lemma Sextets(n: nat, a: nat, b: nat, c: nat)
    requires a == n / 0x40 && b == n / 0x1000 && c == n / 0x40000
    ensures n == 0x40 * a + n % 0x40 && a == 0x40 * b + a % 0x40 && b == 0x40 * c + b % 0x40
  {
  }

  lemma TwoBytes(n: nat)
    requires 0x80 <= n < 0x800
    ensures CharLen([0xC0 + n / 0x40, 0x80 + n % 0x40]) == 2
  {
  }

  lemma ThreeBytes(n: nat)
    requires 0x800 <= n < 0xD800 || 0xE000 <= n < 0x10000
    ensures CharLen([0xE0 + n / 0x1000, 0x80 + n / 0x40 % 0x40, 0x80 + n % 0x40]) == 3
  {
  }

  lemma FourBytes(n: nat)
    requires 0x10000 <= n < 0x11_0000
    ensures CharLen([0xF0 + n / 0x40000, 0x80 + n / 0x1000 % 0x40, 0x80 + n / 0x40 % 0x40, 0x80 + n % 0x40]) == 4
  {
  }

  function ByteValues(bytes: string): (r: Bytes)
    requires forall i :: 0 <= i < |bytes| ==> bytes[i] < '\U{100}'
    ensures |r| == |bytes| && forall i :: 0 <= i < |bytes| ==> r[i] == bytes[i] as int
  {
    seq(|bytes|, i requires 0 <= i < |bytes| => bytes[i] as int)
  }

  /** And the bytes are one well-formed character. */
  lemma EncodedIsOneCharacter(c: char)
    ensures CharLen(ByteValues(EncodeRune(c))) == |EncodeRune(c)|
  {
    var n, bytes := c as int, ByteValues(EncodeRune(c));
    assert n < 0xD800 || 0xE000 <= n < 0x11_0000;
    if 0x80 <= n < 0x800 {
      TwoBytes(n);
      assert bytes == [0xC0 + n / 0x40, 0x80 + n % 0x40];
    } else if 0x800 <= n < 0x10000 {
      ThreeBytes(n);
      assert bytes == [0xE0 + n / 0x1000, 0x80 + n / 0x40 % 0x40, 0x80 + n % 0x40];
    } else if 0x10000 <= n {
      FourBytes(n);
      assert bytes == [0xF0 + n / 0x40000, 0x80 + n / 0x1000 % 0x40, 0x80 + n / 0x40 % 0x40, 0x80 + n % 0x40];
    }
  }

  /** What indexing a Go string gives byte by byte, each byte turned into a rune by string(b). */
  function BytesOf(s: string): string {
    if s == "" then "" else EncodeRune(s[0]) + BytesOf(s[1..])
  }

  function NormalizePath(value: string): string {
    TrimPrefix(TrimSpace(ReplaceAll(value, '\\', '/')), "./")
  }

  /** What one turn of the loop writes, and how many bytes of the pattern it uses. */
  function Piece(p: string): (r: (string, nat))
    requires p != ""
    ensures 1 <= r.1 <= |p|
  {
    if "**/" <= p then ("(?:.*/)?", 3)
    else if "**" <= p then (".*", 2)
    else if p[0] == '*' then ("[^/]*", 1)
    else if p[0] == '?' then ("[^/]", 1)
    else (QuoteMeta(p[0]), 1)
  }

  /** What the loop writes for the rest of a pattern. */
  function Emit(p: string): string
    decreases |p|
  {
    if p == "" then "" else Piece(p).0 + Emit(p[Piece(p).1..])
  }

  /** The item a piece reads as. */
  function ItemOf(p: string): Regex
    requires p != ""
  {
    if "**/" <= p then Opt(Cat(Star(Dot), Cat(Lit('/'), Eps)))
    else if "**" <= p then Star(Dot)
    else if p[0] == '*' then Star(NotSlash)
    else if p[0] == '?' then NotSlash
    else Lit(p[0])
  }

  /** The expression the text of a pattern denotes. */
  function RegexOf(p: string): Regex
    decreases |p|
  {
    if p == "" then Eps else Cat(ItemOf(p), RegexOf(p[Piece(p).1..]))
  }

  /**
   * The glob read directly: `*` and `?` never consume a slash, `**` consumes anything on the
   * line, and `**` with a slash consumes nothing or anything ending in a slash.
   */
  ghost predicate GlobMatch(p: string, v: string)
    decreases |p|
  {
    if p == "" then v == ""
    else if "**/" <= p then
      GlobMatch(p[3..], v) ||
      exists k :: 0 <= k < |v| && v[k] == '/' && '\n' !in v[..k] && GlobMatch(p[3..], v[k + 1..])
    else if "**" <= p then exists k :: 0 <= k <= |v| && '\n' !in v[..k] && GlobMatch(p[2..], v[k..])
    else if p[0] == '*' then exists k :: 0 <= k <= |v| && '/' !in v[..k] && GlobMatch(p[1..], v[k..])
    else if p[0] == '?' then v != "" && v[0] != '/' && GlobMatch(p[1..], v[1..])
    else v != "" && v[0] == p[0] && GlobMatch(p[1..], v[1..])
  }

  /** One turn of the builder loop: the switch over the byte at `i` and its lookahead. */
  method NextPiece(p: string, i: nat) returns (piece: string, used: nat)
    requires i < |p|
    ensures (piece, used) == Piece(p[i..])
  {
    if p[i] == '*' {
      if i + 1 < |p| && p[i + 1] == '*' {
        if i + 2 < |p| && p[i + 2] == '/' {
          return "(?:.*/)?", 3;
        }
        return ".*", 2;
      }
      return "[^/]*", 1;
    }
    if p[i] == '?' {
      return "[^/]", 1;
    }
    return QuoteMeta(p[i]), 1;
  }

  lemma EmitFrom(p: string, i: nat, used: nat)
    requires i < |p| && used == Piece(p[i..]).1
    ensures i + used <= |p| && Emit(p[i..]) == Piece(p[i..]).0 + Emit(p[i + used..])
  {
    assert p[i..][used..] == p[i + used..];
  }

  /** The builder loop of MatchPattern. */
  method CompilePattern(p: string) returns (text: string)
    ensures text == "^" + Emit(p) + "$"
  {
    text := "^";
    var i := 0;
    while i < |p|
      invariant 0 <= i <= |p|
      invariant text + Emit(p[i..]) == "^" + Emit(p)
    {
      var piece, used := NextPiece(p, i);
      EmitFrom(p, i, used);
      assert text + (piece + Emit(p[i + used..])) == (text + piece) + Emit(p[i + used..]);
      text := text + piece;
      i := i + used;
    }
    text := text + "$";
  }

  // ----- The text written denotes the expression.

  /** The written text never starts with a repetition operator, nor does its end. */
  lemma {:induction false} EmitStart(p: string)
    ensures var text := Emit(p) + "$";
            && !Repeats(text)
            && (p != "" ==> text[0] !in ")$")
  {
  }

  lemma {:induction false} EmitReads(p: string)
    ensures ReadItems(Emit(p) + "$") == Some((RegexOf(p), "$"))
    decreases |p|
  {
    if p == "" {
      assert Emit(p) + "$" == "$";
    } else {
      var rest := p[Piece(p).1..];
      var after := Emit(rest) + "$";
      EmitReads(rest);
      EmitStart(p);
      EmitStart(rest);
      assert Emit(p) + "$" == Piece(p).0 + after;
      PieceReads(p, after);
    }
  }

  lemma {:induction false} PieceReads(p: string, after: string)
    requires p != "" && !Repeats(after)
    ensures ReadItem(Piece(p).0 + after) == Some((ItemOf(p), after))
  {
    var piece := Piece(p).0;
    var text := piece + after;
    if "**/" <= p {
      GroupReads(after);
    } else if "**" <= p {
      assert text[1..] == "*" + after && ("*" + after)[1..] == after;
    } else if p[0] == '*' {
      assert "[^/]" <= text && text[4..] == "*" + after && ("*" + after)[1..] == after;
    } else if p[0] == '?' {
      assert "[^/]" <= text && text[4..] == after;
    } else if IsMeta(p[0]) {
      assert text[0] == '\\' && text[1] == p[0] && text[2..] == after;
    } else {
      assert text[0] == p[0] && text[1..] == after;
    }
  }

  lemma {:induction false} DotStarReads(after: string)
    requires !Repeats(after)
    ensures ReadItem(".*" + after) == Some((Star(Dot), after))
  {
    assert (".*" + after)[1..] == "*" + after && ("*" + after)[1..] == after;
  }

  lemma {:induction false} SlashReads(after: string)
    requires !Repeats(after)
    ensures ReadItem("/" + after) == Some((Lit('/'), after))
  {
    assert ("/" + after)[1..] == after;
  }

  /** What stands inside the group, up to its closing bracket. */
  lemma {:induction false} GroupBodyReads(tail: string)
    requires tail != "" && tail[0] == ')'
    ensures ReadItems(".*/" + tail) == Some((Cat(Star(Dot), Cat(Lit('/'), Eps)), tail))
  {
    SlashReads(tail);
    assert ReadItems("/" + tail) == Some((Cat(Lit('/'), Eps), tail));
    DotStarReads("/" + tail);
    assert ".*/" + tail == ".*" + ("/" + tail);
  }

  lemma {:induction false} GroupReads(after: string)
    requires !Repeats(after)
    ensures ReadItem("(?:.*/)?" + after) == Some((Opt(Cat(Star(Dot), Cat(Lit('/'), Eps))), after))
  {
    var text, tail := "(?:.*/)?" + after, ")?" + after;
    assert text[3..] == ".*/" + tail;
    GroupBodyReads(tail);
    assert tail[1..] == "?" + after && ("?" + after)[1..] == after;
  }

  /** Every pattern compiles, to the expression meant: the error branch of MatchPattern is never taken. */
  lemma {:induction false} CompiledTextReads(p: string)
    ensures Read("^" + Emit(p) + "$") == Some(RegexOf(p))
  {
    EmitReads(p);
    assert ("^" + Emit(p) + "$")[1..] == Emit(p) + "$";
  }

  // ----- The expression means the glob.

  lemma {:induction false} OptDirs(s: string)
    ensures Matches(Opt(Cat(Star(Dot), Cat(Lit('/'), Eps))), s)
       <==> s == "" || (s[|s| - 1] == '/' && '\n' !in s[..|s| - 1])
  {
    var dirs := Cat(Star(Dot), Cat(Lit('/'), Eps));
    forall k | 0 <= k <= |s|
      ensures Matches(Cat(Lit('/'), Eps), s[k..]) <==> k == |s| - 1 && s[k] == '/'
    {
      CatOne(Lit('/'), Eps, s[k..]);
      assert s[k..] != "" ==> s[k..][..1] == [s[k]] && s[k..][1..] == s[k + 1..];
    }
    if s != "" {
      StarDot(s[..|s| - 1]);
      assert Matches(dirs, s) <==> s[|s| - 1] == '/' && Matches(Star(Dot), s[..|s| - 1]);
    }
  }

  lemma {:induction false} RegexMeansGlob(p: string, v: string)
    ensures Matches(RegexOf(p), v) <==> GlobMatch(p, v)
    decreases |p|
  {
    if p != "" {
      var item, used := ItemOf(p), Piece(p).1;
      var rest := p[used..];
      forall k | 0 <= k <= |v|
        ensures Matches(RegexOf(rest), v[k..]) <==> GlobMatch(rest, v[k..])
      {
        RegexMeansGlob(rest, v[k..]);
      }
      assert Matches(RegexOf(p), v) <==> SplitBy(item, rest, v);
      ItemMeans(p, v);
    }
  }

  /** The item takes a front part of the value and the rest of the pattern the remainder. */
  ghost predicate SplitBy(item: Regex, rest: string, v: string) {
    exists k :: 0 <= k <= |v| && Matches(item, v[..k]) && GlobMatch(rest, v[k..])
  }

  lemma {:induction false} ItemMeans(p: string, v: string)
    requires p != ""
    ensures SplitBy(ItemOf(p), p[Piece(p).1..], v) <==> GlobMatch(p, v)
  {
    var rest := p[Piece(p).1..];
    if "**/" <= p {
      DirsMean(p, v);
    } else if "**" <= p {
      forall k | 0 <= k <= |v| ensures Matches(Star(Dot), v[..k]) <==> '\n' !in v[..k] {
        StarDot(v[..k]);
      }
    } else if p[0] == '*' {
      forall k | 0 <= k <= |v| ensures Matches(Star(NotSlash), v[..k]) <==> '/' !in v[..k] {
        StarNotSlash(v[..k]);
      }
    } else {
      OneMeans(p, v);
    }
  }

  lemma {:induction false} OneMeans(p: string, v: string)
    requires p != "" && p[0] != '*'
    ensures SplitBy(ItemOf(p), p[1..], v) <==> GlobMatch(p, v)
  {
    var item := ItemOf(p);
    assert !("**/" <= p) && !("**" <= p);
    assert forall k :: 0 <= k <= |v| && Matches(item, v[..k]) ==> k == 1;
    if v != "" {
      assert v[..1] == [v[0]];
      assert Matches(item, v[..1]) <==> if p[0] == '?' then v[0] != '/' else v[0] == p[0];
    }
  }

  /** Taking `k` runes for the directory part of a pattern. */
  ghost predicate TakesDirs(v: string, k: int) {
    0 <= k <= |v| && (k == 0 || (v[k - 1] == '/' && '\n' !in v[..k - 1]))
  }

  lemma ItemTakesDirs(p: string, v: string, k: nat)
    requires "**/" <= p && k <= |v|
    ensures Matches(ItemOf(p), v[..k]) <==> TakesDirs(v, k)
  {
    OptDirs(v[..k]);
    assert k > 0 ==> v[..k][..k - 1] == v[..k - 1];
  }

  lemma {:induction false} DirsMean(p: string, v: string)
    requires "**/" <= p
    ensures SplitBy(ItemOf(p), p[3..], v) <==> GlobMatch(p, v)
  {
    var rest := p[3..];
    if SplitBy(ItemOf(p), rest, v) {
      var k :| 0 <= k <= |v| && Matches(ItemOf(p), v[..k]) && GlobMatch(rest, v[k..]);
      ItemTakesDirs(p, v, k);
      DirsMatch(p, v, k);
    }
    if GlobMatch(p, v) {
      var k := DirsTaken(p, v);
      ItemTakesDirs(p, v, k);
    }
  }

  lemma {:induction false} DirsMatch(p: string, v: string, k: nat)
    requires "**/" <= p && TakesDirs(v, k) && GlobMatch(p[3..], v[k..])
    ensures GlobMatch(p, v)
  {
    if k == 0 {
      assert v[0..] == v;
    } else {
      assert v[(k - 1) + 1..] == v[k..];
    }
  }

  lemma DirsTaken(p: string, v: string) returns (k: nat)
    requires "**/" <= p && GlobMatch(p, v)
    ensures TakesDirs(v, k) && GlobMatch(p[3..], v[k..])
  {
    if GlobMatch(p[3..], v) {
      k := 0;
      assert v[0..] == v;
    } else {
      var slash :| 0 <= slash < |v| && v[slash] == '/' && '\n' !in v[..slash] && GlobMatch(p[3..], v[slash + 1..]);
      k := slash + 1;
    }
  }

  /** MatchPattern: normalise both, compile the pattern's bytes, and match the whole value. */
  ghost predicate MatchPattern(pattern: string, value: string) {
    var p, v := NormalizePath(pattern), NormalizePath(value);
    if p == "" || v == "" then false
    else
      match Read("^" + Emit(BytesOf(p)) + "$")
      case None => p == v
      case Some(re) => Matches(re, v)
  }

  lemma {:induction false} AsciiBytes(s: string)
    ensures BytesOf(s) == s <==> forall i :: 0 <= i < |s| ==> s[i] < '\U{80}'
    ensures |BytesOf(s)| >= |s|
  {
    if s != "" {
      AsciiBytes(s[1..]);
      assert s == [s[0]] + s[1..];
      var head := EncodeRune(s[0]);
      if |head| == 1 {
        assert BytesOf(s)[1..] == BytesOf(s[1..]);
        assert BytesOf(s) == s <==> BytesOf(s[1..]) == s[1..];
      } else {
        assert |BytesOf(s)| > |s|;
      }
    }
  }

  /** A match is exactly what the direct reading of the pattern's bytes says. */
  lemma MatchPatternIsGlob(pattern: string, value: string)
    ensures var p, v := NormalizePath(pattern), NormalizePath(value);
            && (MatchPattern(pattern, value) <==> p != "" && v != "" && GlobMatch(BytesOf(p), v))
            && ((forall i :: 0 <= i < |p| ==> p[i] < '\U{80}') ==> BytesOf(p) == p)
  {
    var p, v := NormalizePath(pattern), NormalizePath(value);
    CompiledTextReads(BytesOf(p));
    RegexMeansGlob(BytesOf(p), v);
    AsciiBytes(p);
  }

  // ----- What normalising ignores.

  /** A text that normalising leaves alone, and that does not turn into another one in front of it. */
  predicate PlainPath(s: string) {
    s != "" && Trimmed(s) && '\\' !in s && !("./" <= s)
  }

  lemma NothingReplaced(s: string)
    requires '\\' !in s
    ensures ReplaceAll(s, '\\', '/') == s
  {
  }

  lemma PlainNormalizes(s: string)
    requires PlainPath(s)
    ensures NormalizePath(s) == s
  {
    NothingReplaced(s);
  }

  lemma DottedNormalizes(s: string)
    requires PlainPath(s)
    ensures NormalizePath("./" + s) == s
  {
    var dotted := "./" + s;
    NothingReplaced(dotted);
    assert dotted[0] == '.' && dotted[|dotted| - 1] == s[|s| - 1] && dotted[2..] == s;
  }

  lemma SpacedNormalizes(s: string)
    requires PlainPath(s)
    ensures NormalizePath(" " + s) == s && NormalizePath(s + " ") == s
  {
    NothingReplaced(" " + s);
    NothingReplaced(s + " ");
    SpacesTrimmed(s);
  }

  lemma SlashedNormalizes(s: string, slashed: string)
    requires PlainPath(s) && |slashed| == |s|
    requires forall i :: 0 <= i < |s| ==> slashed[i] == s[i] || (s[i] == '/' && slashed[i] == '\\')
    ensures NormalizePath(slashed) == s
  {
    assert ReplaceAll(slashed, '\\', '/') == s;
  }

  lemma SameNormalSameMatch(p: string, p': string, v: string, v': string)
    requires NormalizePath(p) == NormalizePath(p') && NormalizePath(v) == NormalizePath(v')
    ensures MatchPattern(p, v) <==> MatchPattern(p', v')
  {
  }

  /** A leading `./`, surrounding space and the direction of slashes make no difference to a match. */
  lemma MatchIgnores(pattern: string, value: string, slashed: string)
    requires PlainPath(pattern) && PlainPath(value) && |slashed| == |value|
    requires forall i :: 0 <= i < |value| ==> slashed[i] == value[i] || (value[i] == '/' && slashed[i] == '\\')
    ensures MatchPattern("./" + pattern, value) <==> MatchPattern(pattern, value)
    ensures MatchPattern(pattern, "./" + value) <==> MatchPattern(pattern, value)
    ensures MatchPattern(" " + pattern, value + " ") <==> MatchPattern(pattern, value)
    ensures MatchPattern(pattern, slashed) <==> MatchPattern(pattern, value)
  {
    PlainNormalizes(pattern);
    PlainNormalizes(value);
    DottedNormalizes(pattern);
    DottedNormalizes(value);
    SpacedNormalizes(pattern);
    SpacedNormalizes(value);
    SlashedNormalizes(value, slashed);
    SameNormalSameMatch("./" + pattern, pattern, value, value);
    SameNormalSameMatch(pattern, pattern, "./" + value, value);
    SameNormalSameMatch(" " + pattern, pattern, value + " ", value);
    SameNormalSameMatch(pattern, pattern, slashed, value);
  }

  /** A pattern without wildcards matches only its own text. */
  lemma {:induction false} PlainGlob(p: string, v: string)
    requires '*' !in p && '?' !in p
    ensures GlobMatch(p, v) <==> p == v
    decreases |p|
  {
    if p != "" {
      assert p[0] != '*' && p[0] != '?';
      assert p == [p[0]] + p[1..];
      if v != "" {
        assert v == [v[0]] + v[1..];
        PlainGlob(p[1..], v[1..]);
      }
    }
  }

  /**
   * A plain name matches itself if and only if it is ASCII: the loop indexes bytes, and a rune
   * beyond ASCII becomes several other runes.
   */
  lemma PlainMatchesItselfIff(name: string)
    requires name != "" && NormalizePath(name) == name && '*' !in name && '?' !in name
    ensures MatchPattern(name, name) <==> forall i :: 0 <= i < |name| ==> name[i] < '\U{80}'
  {
    MatchPatternIsGlob(name, name);
    NoNewWildcards(name);
    PlainGlob(BytesOf(name), name);
    AsciiBytes(name);
  }

  lemma {:induction false} NoNewWildcards(s: string)
    requires '*' !in s && '?' !in s
    ensures '*' !in BytesOf(s) && '?' !in BytesOf(s)
  {
    if s != "" {
      var head := EncodeRune(s[0]);
      assert s[0] in s;
      NoNewWildcards(s[1..]);
      forall i | 0 <= i < |head| ensures head[i] != '*' && head[i] != '?' {
        if |head| > 1 {
          assert head[i] >= '\U{80}';
        }
      }
    }
  }

  // ----- Segment by segment.

  /** No two stars in a row. */
  predicate SingleStars(p: string) {
    forall i :: 0 <= i < |p| - 1 ==> !(p[i] == '*' && p[i + 1] == '*')
  }

  lemma SingleStarsTail(p: string)
    requires SingleStars(p) && p != ""
    ensures !("**" <= p) && SingleStars(p[1..])
  {
    if |p| > 1 {
      assert !(p[0] == '*' && p[0 + 1] == '*');
    }
    forall i | 0 <= i < |p[1..]| - 1 ensures !(p[1..][i] == '*' && p[1..][i + 1] == '*') {
      assert !(p[i + 1] == '*' && p[i + 1 + 1] == '*');
    }
  }

  lemma {:induction false} SegmentHasNoSlash(p: string, v: string)
    requires SingleStars(p) && '/' !in p && GlobMatch(p, v)
    ensures '/' !in v
    decreases |p|
  {
    if p != "" {
      assert p[0] in p;
      SingleStarsTail(p);
      if p[0] == '*' {
        var k :| 0 <= k <= |v| && '/' !in v[..k] && GlobMatch(p[1..], v[k..]);
        SegmentHasNoSlash(p[1..], v[k..]);
        assert v == v[..k] + v[k..];
      } else {
        SegmentHasNoSlash(p[1..], v[1..]);
        assert v == [v[0]] + v[1..];
      }
    }
  }

  /** `h` takes the first `k` runes and `q` the rest. */
  ghost predicate CutAt(h: string, q: string, v: string, k: int) {
    0 <= k <= |v| && GlobMatch(h, v[..k]) && GlobMatch(q, v[k..])
  }

  /** A segment followed by a slash or the end: the match cuts between them. */
  lemma {:induction false} SegmentThenRest(h: string, q: string, v: string)
    requires SingleStars(h) && '/' !in h && (q == "" || q[0] == '/')
    ensures GlobMatch(h + q, v) ==> exists k :: CutAt(h, q, v, k)
    ensures (exists k :: CutAt(h, q, v, k)) ==> GlobMatch(h + q, v)
    decreases |h|
  {
    var p := h + q;
    if h == "" {
      assert p == q && v[0..] == v && v[..0] == "";
      assert GlobMatch(p, v) ==> CutAt(h, q, v, 0);
    } else {
      assert p[0] == h[0] && h[0] in h && p[1..] == h[1..] + q;
      SingleStarsTail(h);
      assert !("**" <= p);
      if h[0] == '*' {
        StarThenRest(h, q, v);
      } else {
        OneThenRest(h, q, v);
      }
    }
  }

  /** A pattern that starts with a rune other than a star takes one rune first. */
  lemma {:induction false} OneHead(p: string, v: string)
    requires p != "" && p[0] != '*'
    ensures GlobMatch(p, v)
       <==> v != "" && (if p[0] == '?' then v[0] != '/' else v[0] == p[0]) && GlobMatch(p[1..], v[1..])
  {
    assert !("**" <= p) && !("**/" <= p);
  }

  lemma {:induction false} OneThenRest(h: string, q: string, v: string)
    requires h != "" && h[0] != '*' && SingleStars(h) && '/' !in h && (q == "" || q[0] == '/')
    ensures GlobMatch(h + q, v) ==> exists k :: CutAt(h, q, v, k)
    ensures (exists k :: CutAt(h, q, v, k)) ==> GlobMatch(h + q, v)
    decreases |h|, 0
  {
    var p := h + q;
    SingleStarsTail(h);
    assert p[0] == h[0] && p[1..] == h[1..] + q;
    OneHead(p, v);
    if GlobMatch(p, v) {
      SegmentThenRest(h[1..], q, v[1..]);
      var m :| CutAt(h[1..], q, v[1..], m);
      OneMore(h, q, v, m);
      assert CutAt(h, q, v, m + 1);
    }
    if k :| CutAt(h, q, v, k) {
      OneHead(h, v[..k]);
      OneMore(h, q, v, k - 1);
      assert CutAt(h[1..], q, v[1..], k - 1);
      SegmentThenRest(h[1..], q, v[1..]);
    }
  }

  lemma OneMore(h: string, q: string, v: string, m: nat)
    requires h != "" && h[0] != '*' && v != "" && !("**" <= h)
    ensures CutAt(h, q, v, m + 1)
       <==> CutAt(h[1..], q, v[1..], m) && (if h[0] == '?' then v[0] != '/' else v[0] == h[0])
  {
    if m + 1 <= |v| {
      assert v[..m + 1][1..] == v[1..][..m] && v[1..][m..] == v[m + 1..];
    }
  }

  /** A single star takes the first `j` runes and the rest of the pattern what follows. */
  ghost predicate StarTakes(rest: string, v: string, j: int) {
    0 <= j <= |v| && '/' !in v[..j] && GlobMatch(rest, v[j..])
  }

  lemma {:induction false} StarMeans(p: string, v: string)
    requires p != "" && p[0] == '*' && !("**" <= p)
    ensures GlobMatch(p, v) <==> exists j :: StarTakes(p[1..], v, j)
  {
    assert !("**/" <= p);
    if GlobMatch(p, v) {
      var j :| 0 <= j <= |v| && '/' !in v[..j] && GlobMatch(p[1..], v[j..]);
      assert StarTakes(p[1..], v, j);
    }
  }

  lemma StarMore(h: string, q: string, v: string, j: nat, m: nat)
    requires h != "" && h[0] == '*' && !("**" <= h)
    requires j <= |v| && '/' !in v[..j] && CutAt(h[1..], q, v[j..], m)
    ensures CutAt(h, q, v, j + m)
  {
    var w := v[..j + m];
    assert w[..j] == v[..j] && w[j..] == v[j..][..m] && v[j..][m..] == v[j + m..];
    assert StarTakes(h[1..], w, j);
    StarMeans(h, w);
  }

  lemma StarLess(h: string, q: string, v: string, k: nat) returns (j: nat)
    requires h != "" && h[0] == '*' && !("**" <= h) && CutAt(h, q, v, k)
    ensures j <= k <= |v| && '/' !in v[..j] && CutAt(h[1..], q, v[j..], k - j)
  {
    var w := v[..k];
    StarMeans(h, w);
    j :| StarTakes(h[1..], w, j);
    assert v[j..][..k - j] == w[j..] && v[j..][k - j..] == v[k..] && v[..j] == w[..j];
  }

  lemma {:induction false} StarThenRest(h: string, q: string, v: string)
    requires h != "" && h[0] == '*' && SingleStars(h) && '/' !in h && (q == "" || q[0] == '/')
    ensures GlobMatch(h + q, v) ==> exists k :: CutAt(h, q, v, k)
    ensures (exists k :: CutAt(h, q, v, k)) ==> GlobMatch(h + q, v)
    decreases |h|, 0
  {
    var p := h + q;
    SingleStarsTail(h);
    assert p[0] == h[0] && p[1..] == h[1..] + q && !("**" <= p);
    StarMeans(p, v);
    if j :| StarTakes(p[1..], v, j) {
      SegmentThenRest(h[1..], q, v[j..]);
      var m :| CutAt(h[1..], q, v[j..], m);
      StarMore(h, q, v, j, m);
    }
    if k :| CutAt(h, q, v, k) {
      var j := StarLess(h, q, v, k);
      SegmentThenRest(h[1..], q, v[j..]);
      assert StarTakes(p[1..], v, j);
    }
  }

  ghost predicate SegmentsMatch(ps: seq<string>, vs: seq<string>) {
    |ps| == |vs| && forall i :: 0 <= i < |ps| ==> GlobMatch(ps[i], vs[i])
  }

  /**
   * A pattern without `**` matches exactly the values with as many segments as it has, each
   * matching its own.
   */
  lemma {:induction false} MatchesSegmentwise(p: string, v: string)
    requires SingleStars(p)
    ensures GlobMatch(p, v) <==> SegmentsMatch(Split(p, '/'), Split(v, '/'))
    decreases |p|
  {
    var n, m := IndexOf(p, '/'), IndexOf(v, '/');
    if n == |p| {
      OneSegment(p, v);
    } else {
      MatchIffHeadsAndTails(p, v);
      if m < |v| {
        var ps, vs := Split(p[n + 1..], '/'), Split(v[m + 1..], '/');
        SingleStarsPart(p, n);
        MatchesSegmentwise(p[n + 1..], v[m + 1..]);
        SegmentsCons(p[..n], ps, v[..m], vs);
        assert Split(p, '/') == [p[..n]] + ps && Split(v, '/') == [v[..m]] + vs;
      } else {
        assert |Split(p, '/')| > 1 && |Split(v, '/')| == 1;
      }
    }
  }

  lemma {:induction false} MatchIffHeadsAndTails(p: string, v: string)
    requires SingleStars(p) && IndexOf(p, '/') < |p|
    ensures GlobMatch(p, v) <==> HeadsAndTails(p, v)
  {
    if GlobMatch(p, v) {
      MatchGivesHeadsAndTails(p, v);
    } else if HeadsAndTails(p, v) {
      HeadsAndTailsGiveMatch(p, v);
    }
  }

  lemma {:induction false} OneSegment(p: string, v: string)
    requires SingleStars(p) && IndexOf(p, '/') == |p|
    ensures GlobMatch(p, v) <==> SegmentsMatch(Split(p, '/'), Split(v, '/'))
  {
    assert p[..|p|] == p;
    if GlobMatch(p, v) {
      SegmentHasNoSlash(p, v);
      IndexOfNone(v, '/');
    }
    if IndexOf(v, '/') == |v| {
      SegmentsCons(p, [], v, []);
      assert [p] + [] == Split(p, '/') && [v] + [] == Split(v, '/');
    }
  }

  lemma {:induction false} SegmentsCons(h: string, ps: seq<string>, w: string, vs: seq<string>)
    ensures SegmentsMatch([h] + ps, [w] + vs) <==> GlobMatch(h, w) && SegmentsMatch(ps, vs)
  {
    var ps', vs' := [h] + ps, [w] + vs;
    if SegmentsMatch(ps', vs') {
      assert ps'[0] == h && vs'[0] == w;
      forall i | 0 <= i < |ps| ensures GlobMatch(ps[i], vs[i]) {
        assert ps'[i + 1] == ps[i] && vs'[i + 1] == vs[i];
      }
    }
    if GlobMatch(h, w) && SegmentsMatch(ps, vs) {
      forall i | 0 <= i < |ps'| ensures GlobMatch(ps'[i], vs'[i]) {
        assert i > 0 ==> ps'[i] == ps[i - 1] && vs'[i] == vs[i - 1];
      }
    }
  }

  lemma SingleStarsPart(p: string, n: nat)
    requires SingleStars(p) && n <= |p|
    ensures SingleStars(p[..n]) && SingleStars(p[n..])
    ensures n < |p| ==> SingleStars(p[n + 1..])
  {
    forall i | 0 <= i < |p[n..]| - 1 ensures !(p[n..][i] == '*' && p[n..][i + 1] == '*') {
      assert !(p[n + i] == '*' && p[n + i + 1] == '*');
    }
    if n < |p| {
      SingleStarsTail(p[n..]);
      assert p[n..][1..] == p[n + 1..];
    }
  }

  /** The first segments match each other, and what follows the first slashes matches. */
  ghost predicate HeadsAndTails(p: string, v: string) {
    var n, m := IndexOf(p, '/'), IndexOf(v, '/');
    n < |p| && m < |v| && GlobMatch(p[..n], v[..m]) && GlobMatch(p[n + 1..], v[m + 1..])
  }

  lemma {:induction false} MatchGivesHeadsAndTails(p: string, v: string)
    requires SingleStars(p) && IndexOf(p, '/') < |p| && GlobMatch(p, v)
    ensures HeadsAndTails(p, v)
  {
    var n := IndexOf(p, '/');
    var h, q := p[..n], p[n..];
    SingleStarsPart(p, n);
    assert p == h + q && q[1..] == p[n + 1..];
    SegmentThenRest(h, q, v);
    var k :| CutAt(h, q, v, k);
    CutsAtFirstSlash(h, q, v, k);
  }

  lemma {:induction false} HeadsAndTailsGiveMatch(p: string, v: string)
    requires SingleStars(p) && HeadsAndTails(p, v)
    ensures GlobMatch(p, v)
  {
    var n, m := IndexOf(p, '/'), IndexOf(v, '/');
    var h, q := p[..n], p[n..];
    SingleStarsPart(p, n);
    assert p == h + q && q[1..] == p[n + 1..];
    assert CutAt(h, q, v, m) by {
      SlashFirst(q, v, m);
    }
    SegmentThenRest(h, q, v);
  }

  lemma {:induction false} CutsAtFirstSlash(h: string, q: string, v: string, k: nat)
    requires SingleStars(h) && '/' !in h && q != "" && q[0] == '/' && CutAt(h, q, v, k)
    ensures k == IndexOf(v, '/') < |v| && GlobMatch(h, v[..k]) && GlobMatch(q[1..], v[k + 1..])
  {
    SlashFirst(q, v, k);
    assert v[k..] != "" && v[k..][0] == '/';
    assert IndexOf(v, '/') == k by {
      SegmentHasNoSlash(h, v[..k]);
      assert v == v[..k] + ['/'] + v[k + 1..];
      IndexOfAt(v[..k], '/', v[k + 1..]);
    }
  }

  lemma {:induction false} SlashFirst(q: string, v: string, m: nat)
    requires q != "" && q[0] == '/'
    ensures m <= |v| && GlobMatch(q, v[m..]) ==> v[m..] != "" && v[m..][0] == '/'
    ensures m < |v| && v[m] == '/' ==> (GlobMatch(q, v[m..]) <==> GlobMatch(q[1..], v[m + 1..]))
  {
    assert !("**" <= q) && !("**/" <= q);
    assert m < |v| ==> v[m..][1..] == v[m + 1..];
  }
}
