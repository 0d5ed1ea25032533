/**
 * The parts of Go's strings package the modelled code calls, over sequences of runes.
 *
 * White space is that of unicode.IsSpace. Letter case is ASCII only, and text is compared rune by
 * rune, without normalisation. Split and Join, Index and LastIndex, TrimSpace and the prefix
 * operations follow the package's documentation, the empty text included.
 */
module Text {

  /** unicode.IsSpace. */
  predicate IsSpace(c: char) {
    var n := c as int;
    || 0x09 <= n <= 0x0D || n == 0x20 || n == 0x85 || n == 0xA0 || n == 0x1680 || 0x2000 <= n <= 0x200A
    || n == 0x2028 || n == 0x2029 || n == 0x202F || n == 0x205F || n == 0x3000
  }

  function TrimLeft(s: string): (r: string)
    ensures r != "" ==> !IsSpace(r[0])
  {
    if s != "" && IsSpace(s[0]) then TrimLeft(s[1..]) else s
  }

  function TrimRight(s: string): (r: string)
    ensures r != "" ==> !IsSpace(r[|r| - 1]) && s != "" && r[0] == s[0]
  {
    if s != "" && IsSpace(s[|s| - 1]) then TrimRight(s[..|s| - 1]) else s
  }

  predicate Trimmed(s: string) {
    s != "" ==> !IsSpace(s[0]) && !IsSpace(s[|s| - 1])
  }

  function TrimSpace(s: string): (r: string)
    ensures Trimmed(r)
    ensures Trimmed(s) ==> r == s
  {
    TrimRight(TrimLeft(s))
  }

  lemma {:induction false} TrimLeftIsSlice(s: string)
    ensures |TrimLeft(s)| <= |s| && TrimLeft(s) == s[|s| - |TrimLeft(s)|..]
    ensures forall k :: 0 <= k < |s| - |TrimLeft(s)| ==> IsSpace(s[k])
    decreases |s|
  {
    if s != "" && IsSpace(s[0]) {
      TrimLeftIsSlice(s[1..]);
      assert forall k :: 0 < k < |s| ==> s[k] == s[1..][k - 1];
    }
  }

  lemma {:induction false} TrimRightIsSlice(s: string)
    ensures |TrimRight(s)| <= |s| && TrimRight(s) == s[..|TrimRight(s)|]
    ensures forall k :: |TrimRight(s)| <= k < |s| ==> IsSpace(s[k])
    decreases |s|
  {
    if s != "" && IsSpace(s[|s| - 1]) {
      TrimRightIsSlice(s[..|s| - 1]);
    }
  }

  /** What is left lies where it was, and all that was taken off is white space. */
  lemma TrimIsSlice(s: string) returns (i: nat)
    ensures i + |TrimSpace(s)| <= |s| && TrimSpace(s) == s[i..i + |TrimSpace(s)|]
    ensures forall k :: 0 <= k < i || i + |TrimSpace(s)| <= k < |s| ==> IsSpace(s[k])
  {
    TrimLeftIsSlice(s);
    TrimRightIsSlice(TrimLeft(s));
    i := |s| - |TrimLeft(s)|;
    assert forall k :: i <= k < |s| ==> s[k] == TrimLeft(s)[k - i];
  }

  lemma SpacesTrimmed(s: string)
    requires s != "" && Trimmed(s)
    ensures TrimSpace(" " + s) == s && TrimSpace(s + " ") == s && TrimSpace(" " + s + " ") == s
  {
    assert (" " + s)[1..] == s && (s + " ")[..|s|] == s;
    assert (" " + s + " ")[1..] == s + " ";
    assert TrimLeft(" " + s) == TrimLeft(s) && TrimLeft(s + " ") == s + " ";
    assert TrimLeft(" " + s + " ") == TrimLeft(s + " ");
    assert TrimRight(s + " ") == TrimRight(s);
  }

  /** strings.Trim(s, "/"). */
  function TrimSlashes(s: string): (r: string)
    ensures s == "" || (s[0] != '/' && s[|s| - 1] != '/') ==> r == s
    decreases |s|
  {
    if s == "" then s
    else if s[0] == '/' then TrimSlashes(s[1..])
    else if s[|s| - 1] == '/' then TrimSlashes(s[..|s| - 1])
    else s
  }

  /** What is left starts and ends in no slash, and all that was taken off is slashes. */
  lemma {:induction false} TrimSlashesIsSlice(s: string) returns (i: nat)
    ensures var r := TrimSlashes(s);
            && i + |r| <= |s| && r == s[i..i + |r|]
            && (forall k :: 0 <= k < i || i + |r| <= k < |s| ==> s[k] == '/')
            && (r != "" ==> r[0] != '/' && r[|r| - 1] != '/')
    decreases |s|
  {
    i := 0;
    if s != "" && s[0] == '/' {
      i := TrimSlashesIsSlice(s[1..]);
      i := i + 1;
      assert forall k :: 0 < k < |s| ==> s[k] == s[1..][k - 1];
    } else if s != "" && s[|s| - 1] == '/' {
      i := TrimSlashesIsSlice(s[..|s| - 1]);
    }
  }

  function TrimPrefix(s: string, prefix: string): string {
    if prefix <= s then s[|prefix|..] else s
  }

  function LowerChar(c: char): char {
    if 'A' <= c <= 'Z' then (c as int + 32) as char else c
  }

  function ToLower(s: string): (r: string)
    ensures |r| == |s|
    ensures forall i :: 0 <= i < |s| ==> r[i] == LowerChar(s[i])
  {
    seq(|s|, i requires 0 <= i < |s| => LowerChar(s[i]))
  }

  lemma ToLowerStable(s: string)
    ensures ToLower(ToLower(s)) == ToLower(s)
    ensures Trimmed(s) ==> Trimmed(ToLower(s))
  {
    forall i | 0 <= i < |s| ensures ToLower(ToLower(s))[i] == ToLower(s)[i] {
      assert LowerChar(LowerChar(s[i])) == LowerChar(s[i]);
    }
    assert s != "" ==> ToLower(s)[0] == LowerChar(s[0]) && ToLower(s)[|s| - 1] == LowerChar(s[|s| - 1]);
  }

  function ReplaceAll(s: string, from: char, to: char): (r: string)
    ensures |r| == |s|
    ensures forall i :: 0 <= i < |s| ==> r[i] == if s[i] == from then to else s[i]
  {
    seq(|s|, i requires 0 <= i < |s| => if s[i] == from then to else s[i])
  }

  /** Position of the first `c`, or the length when there is none. */
  function IndexOf(s: string, c: char): (n: nat)
    ensures n <= |s| && c !in s[..n] && (n < |s| ==> s[n] == c)
  {
    if s == "" || s[0] == c then 0
    else
      var n := 1 + IndexOf(s[1..], c);
      assert s[..n] == [s[0]] + s[1..][..n - 1];
      n
  }

  /** strings.Split on a one-character separator. */
  function Split(s: string, c: char): (parts: seq<string>)
    ensures |parts| > 0
    decreases |s|
  {
    var n := IndexOf(s, c);
    if n == |s| then [s] else [s[..n]] + Split(s[n + 1..], c)
  }

  /** strings.SplitN(s, c, 2): at most one cut. */
  function SplitOnce(s: string, c: char): (parts: seq<string>)
    ensures 1 <= |parts| <= 2
  {
    var n := IndexOf(s, c);
    if n == |s| then [s] else [s[..n], s[n + 1..]]
  }

  function Join(parts: seq<string>, c: char): string {
    if parts == [] then ""
    else if |parts| == 1 then parts[0]
    else parts[0] + [c] + Join(parts[1..], c)
  }

  predicate Without(parts: seq<string>, c: char) {
    forall i :: 0 <= i < |parts| ==> c !in parts[i]
  }

  lemma {:induction false} IndexOfAt(head: string, c: char, tail: string)
    requires c !in head
    ensures IndexOf(head + [c] + tail, c) == |head|
  {
    var s := head + [c] + tail;
    var n := IndexOf(s, c);
    assert s[|head|] == c && forall i :: 0 <= i < |head| ==> s[i] == head[i];
  }

  lemma {:induction false} IndexOfNone(s: string, c: char)
    requires c !in s
    ensures IndexOf(s, c) == |s|
  {
  }

  lemma {:induction false} JoinOfSplit(s: string, c: char)
    ensures Join(Split(s, c), c) == s && Without(Split(s, c), c)
    decreases |s|
  {
    var n := IndexOf(s, c);
    if n < |s| {
      JoinOfSplit(s[n + 1..], c);
      assert Split(s, c)[1..] == Split(s[n + 1..], c);
      assert s == s[..n] + [c] + s[n + 1..];
    } else {
      assert s[..n] == s;
    }
  }

  lemma {:induction false} SplitOfJoin(parts: seq<string>, c: char)
    requires parts != [] && Without(parts, c)
    ensures Split(Join(parts, c), c) == parts
    decreases |parts|
  {
    var s := Join(parts, c);
    if |parts| == 1 {
      IndexOfNone(s, c);
    } else {
      IndexOfAt(parts[0], c, Join(parts[1..], c));
      SplitOfJoin(parts[1..], c);
      assert s[..|parts[0]|] == parts[0] && s[|parts[0]| + 1..] == Join(parts[1..], c);
    }
  }

  lemma {:induction false} JoinSnoc(parts: seq<string>, last: string, c: char)
    requires parts != []
    ensures Join(parts + [last], c) == Join(parts, c) + [c] + last
    decreases |parts|
  {
    if |parts| == 1 {
      assert (parts + [last])[1..] == [last];
    } else {
      JoinSnoc(parts[1..], last, c);
      assert (parts + [last])[1..] == parts[1..] + [last];
      assert parts[0] + [c] + (Join(parts[1..], c) + [c] + last)
          == (parts[0] + [c] + Join(parts[1..], c)) + [c] + last;
    }
  }

  /** Joining texts whose ends are not spaces gives such a text. */
  lemma {:induction false} JoinTrimmed(parts: seq<string>, c: char)
    requires parts != []
    requires forall i :: 0 <= i < |parts| ==> parts[i] != "" && Trimmed(parts[i])
    ensures var r := Join(parts, c);
            r != "" && Trimmed(r) && r[0] == parts[0][0] && r[|r| - 1] == parts[|parts| - 1][|parts[|parts| - 1]| - 1]
    decreases |parts|
  {
    if |parts| > 1 {
      var rest := Join(parts[1..], c);
      JoinTrimmed(parts[1..], c);
      assert (parts[0] + [c] + rest)[|parts[0]| + |rest|] == rest[|rest| - 1];
    }
  }
}
