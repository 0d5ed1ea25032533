/**
 * Byte strings and UTF-8 validity, as the grammar of RFC 3629 section 4 gives it.
 *
 * A text is valid when it is a sequence of well-formed characters of one to four bytes; RuneStart
 * is Go's weaker test on a single byte. In valid text the two agree on where characters begin,
 * which is what lets a cut found byte by byte fall between two characters.
 */
module Utf8 {
  type Byte = x: int | 0 <= x < 256
  type Bytes = seq<Byte>

  /** Go's utf8.RuneStart: the two top bits are not 10. */
  predicate RuneStart(b: Byte) {
    b < 0x80 || b >= 0xC0
  }

  predicate Tail(s: Bytes, i: nat) {
    i < |s| && 0x80 <= s[i] <= 0xBF
  }

  /** Length of the well-formed character at the head of `s`; 0 when there is none. */
  function CharLen(s: Bytes): (n: nat)
    ensures n <= 4 && n <= |s|
    ensures n > 0 ==> RuneStart(s[0]) && forall i :: 1 <= i < n ==> !RuneStart(s[i])
  {
    if s == [] then 0
    else if s[0] <= 0x7F then 1
    else if 0xC2 <= s[0] <= 0xDF && Tail(s, 1) then 2
    else if 0xE0 <= s[0] <= 0xEF && Tail(s, 1) && Tail(s, 2)
            && (s[0] == 0xE0 ==> s[1] >= 0xA0) && (s[0] == 0xED ==> s[1] <= 0x9F) then 3
    else if 0xF0 <= s[0] <= 0xF4 && Tail(s, 1) && Tail(s, 2) && Tail(s, 3)
            && (s[0] == 0xF0 ==> s[1] >= 0x90) && (s[0] == 0xF4 ==> s[1] <= 0x8F) then 4
    else 0
  }

  predicate Valid(s: Bytes) {
    s == [] || (CharLen(s) > 0 && Valid(s[CharLen(s)..]))
  }

  /** Every character of `s` takes at most `limit` bytes. */
  predicate CharsFit(s: Bytes, limit: int)
    requires Valid(s)
  {
    s == [] || (CharLen(s) <= limit && CharsFit(s[CharLen(s)..], limit))
  }

  /** The head character is decided by its own bytes alone. */
  lemma CharLenLocal(s: Bytes, t: Bytes)
    requires |s| <= |t| && s == t[..|s|]
    ensures CharLen(s) > 0 ==> CharLen(t) == CharLen(s)
    ensures 0 < CharLen(t) <= |s| ==> CharLen(s) == CharLen(t)
  {
    forall i | 0 <= i < |s| ensures t[i] == s[i] {}
  }

  /** Cutting valid text at its end or before a start byte leaves two valid texts. */
  lemma {:induction false} CutAtStart(s: Bytes, k: nat)
    requires Valid(s) && k <= |s| && (k < |s| ==> RuneStart(s[k]))
    ensures Valid(s[..k]) && Valid(s[k..])
    decreases |s|
  {
    if k == 0 {
      assert s[0..] == s;
    } else {
      var n := CharLen(s);
      assert n <= k;
      var rest := s[n..];
      assert k < |s| ==> rest[k - n] == s[k];
      CutAtStart(rest, k - n);
      assert rest[..k - n] == s[..k][n..] && rest[k - n..] == s[k..];
      CharLenLocal(s[..k], s);
    }
  }

  lemma {:induction false} ValidConcat(a: Bytes, b: Bytes)
    requires Valid(a) && Valid(b)
    ensures Valid(a + b)
    ensures forall limit :: CharsFit(a + b, limit) <==> CharsFit(a, limit) && CharsFit(b, limit)
    decreases |a|
  {
    if a == [] {
      assert a + b == b;
    } else {
      var n := CharLen(a);
      CharLenLocal(a, a + b);
      assert (a + b)[n..] == a[n..] + b;
      ValidConcat(a[n..], b);
    }
  }

  lemma {:induction false} ShortTextFits(s: Bytes, limit: int)
    requires Valid(s) && |s| <= limit
    ensures CharsFit(s, limit)
    decreases |s|
  {
    if s != [] {
      ShortTextFits(s[CharLen(s)..], limit);
    }
  }
}
