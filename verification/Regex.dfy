/**
 * The part of Go's regular expressions the trigger patterns compile to: its syntax, read from
 * text, and the language each expression denotes.
 */
module Regex {
  import opened Wrappers

  datatype Regex =
    | Eps
    | Lit(c: char)
    | NotSlash
    | Dot
    | Star(r: Regex)
    | Opt(r: Regex)
    | Cat(a: Regex, b: Regex)

  /** The language: `.` is any rune but a newline, `[^/]` any rune but a slash. */
  ghost predicate Matches(r: Regex, s: string)
    decreases r, |s|
  {
    match r
    case Eps => s == ""
    case Lit(c) => s == [c]
    case NotSlash => |s| == 1 && s[0] != '/'
    case Dot => |s| == 1 && s[0] != '\n'
    case Opt(r') => s == "" || Matches(r', s)
    case Star(r') => s == "" || exists k :: 0 < k <= |s| && Matches(r', s[..k]) && Matches(r, s[k..])
    case Cat(a, b) => exists k :: 0 <= k <= |s| && Matches(a, s[..k]) && Matches(b, s[k..])
  }

  /** The characters regexp.QuoteMeta escapes. */
  predicate IsMeta(c: char) {
    c in "\\.+*?()|[]{}^$"
  }

  function QuoteMeta(c: char): string {
    if IsMeta(c) then ['\\', c] else [c]
  }

  /** An atom and the text after it. */
  function ReadAtom(s: string): (r: Option<(Regex, string)>)
    ensures r.Some? ==> |r.value.1| < |s|
    decreases |s|, 0
  {
    if s == "" then None
    else if s[0] == '.' then Some((Dot, s[1..]))
    else if "[^/]" <= s then Some((NotSlash, s[4..]))
    else if "(?:" <= s then
      match ReadItems(s[3..])
      case None => None
      case Some((group, rest)) => if ")" <= rest then Some((group, rest[1..])) else None
    else if s[0] == '\\' then
      if |s| > 1 && IsMeta(s[1]) then Some((Lit(s[1]), s[2..])) else None
    else if IsMeta(s[0]) then None
    else Some((Lit(s[0]), s[1..]))
  }

  predicate Repeats(s: string) {
    s != "" && s[0] in "*+?"
  }

  /** An atom with at most one `*` or `?` after it. */
  function ReadItem(s: string): (r: Option<(Regex, string)>)
    ensures r.Some? ==> |r.value.1| < |s|
    decreases |s|, 1
  {
    match ReadAtom(s)
    case None => None
    case Some((atom, rest)) =>
      if !Repeats(rest) then Some((atom, rest))
      else if Repeats(rest[1..]) || rest[0] == '+' then None
      else Some((if rest[0] == '*' then Star(atom) else Opt(atom), rest[1..]))
  }

  /** Items up to a closing parenthesis, an end anchor or the end. */
  function ReadItems(s: string): (r: Option<(Regex, string)>)
    ensures r.Some? ==> |r.value.1| <= |s|
    decreases |s|, 2
  {
    if s == "" || s[0] in ")$" then Some((Eps, s))
    else
      match ReadItem(s)
      case None => None
      case Some((item, rest)) =>
        match ReadItems(rest)
        case None => None
        case Some((items, after)) => Some((Cat(item, items), after))
  }

  /** An expression anchored at both ends; None is what Compile rejects, or text outside this part. */
  function Read(text: string): Option<Regex> {
    if !("^" <= text) then None
    else
      match ReadItems(text[1..])
      case None => None
      case Some((r, rest)) => if rest == "$" then Some(r) else None
  }

  lemma {:induction false} StarNotSlash(s: string)
    ensures Matches(Star(NotSlash), s) <==> '/' !in s
    decreases |s|
  {
    if s != "" {
      assert s == [s[0]] + s[1..];
      StarNotSlash(s[1..]);
      assert s[..1] == [s[0]];
      assert forall k :: 0 < k <= |s| && Matches(NotSlash, s[..k]) ==> k == 1;
    }
  }

  lemma {:induction false} StarDot(s: string)
    ensures Matches(Star(Dot), s) <==> '\n' !in s
    decreases |s|
  {
    if s != "" {
      assert s == [s[0]] + s[1..];
      StarDot(s[1..]);
      assert s[..1] == [s[0]];
      assert forall k :: 0 < k <= |s| && Matches(Dot, s[..k]) ==> k == 1;
    }
  }

  /** One rune followed by the rest. */
  lemma {:induction false} CatOne(a: Regex, b: Regex, s: string)
    requires forall w :: Matches(a, w) ==> |w| == 1
    ensures Matches(Cat(a, b), s) <==> s != "" && Matches(a, s[..1]) && Matches(b, s[1..])
  {
  }
}
