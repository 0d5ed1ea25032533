/** pkg/compatibility version precedence and ranges (SemVer 2.0.0 sections 9 to 11). */
module Semver {
  import opened Decimal

  datatype Version = Version(major: nat, minor: nat, patch: nat, prerelease: seq<string>, build: seq<string>)

  function CompareInts(a: int, b: int): int {
    if a < b then -1 else if a > b then 1 else 0
  }

  /** strings.Compare. */
  function CompareText(a: string, b: string): (c: int)
    ensures -1 <= c <= 1
  {
    if a == "" && b == "" then 0
    else if a == "" then -1
    else if b == "" then 1
    else if a[0] < b[0] then -1
    else if a[0] > b[0] then 1
    else CompareText(a[1..], b[1..])
  }

  function CompareIdentifier(a: string, b: string): (c: int)
    ensures -1 <= c <= 1
  {
    if Numeric(a) && Numeric(b) then
      if |a| < |b| then -1 else if |a| > |b| then 1 else CompareText(a, b)
    else if Numeric(a) then -1
    else if Numeric(b) then 1
    else CompareText(a, b)
  }

  /** The identifier loop and the length tests after it. */
  function CompareIdentifiers(a: seq<string>, b: seq<string>): (c: int)
    ensures -1 <= c <= 1
  {
    if a == [] && b == [] then 0
    else if a == [] then -1
    else if b == [] then 1
    else
      var c := CompareIdentifier(a[0], b[0]);
      if c != 0 then c else CompareIdentifiers(a[1..], b[1..])
  }

  /** A release is above its own prereleases. */
  function ComparePrerelease(a: seq<string>, b: seq<string>): (c: int)
    ensures -1 <= c <= 1
  {
    if a == [] && b == [] then 0
    else if a == [] then 1
    else if b == [] then -1
    else CompareIdentifiers(a, b)
  }

  function CompareCore(a: Version, b: Version): (c: int)
    ensures -1 <= c <= 1
  {
    var major, minor := CompareInts(a.major, b.major), CompareInts(a.minor, b.minor);
    if major != 0 then major else if minor != 0 then minor else CompareInts(a.patch, b.patch)
  }

  function Precedence(a: Version, b: Version): (c: int)
    ensures -1 <= c <= 1
  {
    var core := CompareCore(a, b);
    if core != 0 then core else ComparePrerelease(a.prerelease, b.prerelease)
  }

  method Compare(v: Version, other: Version) returns (c: int)
    ensures c == Precedence(v, other)
  {
    var pairs := [(v.major, other.major), (v.minor, other.minor), (v.patch, other.patch)];
    for i := 0 to |pairs|
      invariant forall k :: 0 <= k < i ==> pairs[k].0 == pairs[k].1
    {
      assert (i >= 1 ==> pairs[0].0 == pairs[0].1) && (i >= 2 ==> pairs[1].0 == pairs[1].1);
      if pairs[i].0 < pairs[i].1 {
        return -1;
      }
      if pairs[i].0 > pairs[i].1 {
        return 1;
      }
    }
    assert pairs[0].0 == pairs[0].1 && pairs[1].0 == pairs[1].1 && pairs[2].0 == pairs[2].1;
    if |v.prerelease| == 0 && |other.prerelease| == 0 {
      return 0;
    }
    if |v.prerelease| == 0 {
      return 1;
    }
    if |other.prerelease| == 0 {
      return -1;
    }
    var limit := if |v.prerelease| < |other.prerelease| then |v.prerelease| else |other.prerelease|;
    for i := 0 to limit
      invariant CompareIdentifiers(v.prerelease, other.prerelease)
             == CompareIdentifiers(v.prerelease[i..], other.prerelease[i..])
    {
      c := CompareIdentifier(v.prerelease[i], other.prerelease[i]);
      if c != 0 {
        return;
      }
      assert v.prerelease[i..][1..] == v.prerelease[i + 1..] && other.prerelease[i..][1..] == other.prerelease[i + 1..];
    }
    c := CompareInts(|v.prerelease|, |other.prerelease|);
  }

  // ----- The order.

  lemma {:induction false} TextOrder(a: string, b: string)
    ensures CompareText(a, b) == -CompareText(b, a) && (CompareText(a, b) == 0 <==> a == b)
  {
    if a != "" && b != "" {
      TextOrder(a[1..], b[1..]);
      assert a == [a[0]] + a[1..] && b == [b[0]] + b[1..];
    }
  }

  lemma {:induction false} TextTransitive(a: string, b: string, c: string)
    requires CompareText(a, b) <= 0 && CompareText(b, c) <= 0
    ensures CompareText(a, c) <= 0
  {
    if a != "" && b != "" && c != "" && a[0] == b[0] == c[0] {
      TextTransitive(a[1..], b[1..], c[1..]);
    }
  }

  lemma IdentifierOrder(a: string, b: string)
    ensures CompareIdentifier(a, b) == -CompareIdentifier(b, a) && (CompareIdentifier(a, b) == 0 <==> a == b)
  {
    TextOrder(a, b);
  }

  lemma IdentifierTransitive(a: string, b: string, c: string)
    requires CompareIdentifier(a, b) <= 0 && CompareIdentifier(b, c) <= 0
    ensures CompareIdentifier(a, c) <= 0
  {
    if CompareText(a, b) <= 0 && CompareText(b, c) <= 0 {
      TextTransitive(a, b, c);
    }
  }

  lemma {:induction false} IdentifiersOrder(a: seq<string>, b: seq<string>)
    ensures CompareIdentifiers(a, b) == -CompareIdentifiers(b, a) && (CompareIdentifiers(a, b) == 0 <==> a == b)
  {
    if a != [] && b != [] {
      IdentifierOrder(a[0], b[0]);
      IdentifiersOrder(a[1..], b[1..]);
      assert a == [a[0]] + a[1..] && b == [b[0]] + b[1..];
    }
  }

  lemma {:induction false} IdentifiersTransitive(a: seq<string>, b: seq<string>, c: seq<string>)
    requires CompareIdentifiers(a, b) <= 0 && CompareIdentifiers(b, c) <= 0
    ensures CompareIdentifiers(a, c) <= 0
  {
    if a != [] && b != [] && c != [] {
      IdentifierTransitive(a[0], b[0], c[0]);
      IdentifierOrder(a[0], b[0]);
      IdentifierOrder(b[0], c[0]);
      IdentifierOrder(a[0], c[0]);
      if a[0] == b[0] == c[0] {
        IdentifiersTransitive(a[1..], b[1..], c[1..]);
      }
    }
  }

  /** Precedence is antisymmetric in sign, and zero exactly when all but build metadata agree. */
  lemma PrecedenceOrder(a: Version, b: Version)
    ensures Precedence(a, b) == -Precedence(b, a)
    ensures Precedence(a, b) == 0 <==> a.(build := b.build) == b
  {
    IdentifiersOrder(a.prerelease, b.prerelease);
  }

  /** And it is transitive, across numeric and alphanumeric identifiers of any length. */
  lemma PrecedenceTransitive(a: Version, b: Version, c: Version)
    requires Precedence(a, b) <= 0 && Precedence(b, c) <= 0
    ensures Precedence(a, c) <= 0
    ensures Precedence(a, b) < 0 || Precedence(b, c) < 0 ==> Precedence(a, c) < 0
  {
    if CompareIdentifiers(a.prerelease, b.prerelease) <= 0 && CompareIdentifiers(b.prerelease, c.prerelease) <= 0 {
      IdentifiersTransitive(a.prerelease, b.prerelease, c.prerelease);
    }
    PrecedenceOrder(a, b);
    PrecedenceOrder(b, c);
    PrecedenceOrder(a, c);
  }

  /** Numeric identifiers without leading zeros compare by value. */
  lemma {:induction false} NumericByValue(a: string, b: string)
    requires Canonical(a) && Canonical(b)
    ensures CompareIdentifier(a, b) == CompareInts(Value(a), Value(b))
  {
    if |a| < |b| {
      ShorterIsSmaller(a, b);
    } else if |b| < |a| {
      ShorterIsSmaller(b, a);
    } else {
      SameLengthByValue(a, b);
    }
  }

  lemma {:induction false} SameLengthByValue(a: string, b: string)
    requires |a| == |b|
    requires forall i :: 0 <= i < |a| ==> IsDigit(a[i]) && IsDigit(b[i])
    ensures CompareText(a, b) == CompareInts(Value(a), Value(b))
    decreases |a|
  {
    if a != "" {
      ValueFromFront(a);
      ValueFromFront(b);
      SameLengthByValue(a[1..], b[1..]);
      ValueBelow(a[1..]);
      ValueBelow(b[1..]);
      LeadingDigitDecides(DigitValue(a[0]), DigitValue(b[0]), Pow10(|a| - 1), Value(a[1..]), Value(b[1..]));
    }
  }

  lemma LeadingDigitDecides(x: nat, y: nat, p: nat, v: nat, w: nat)
    requires v < p && w < p
    ensures x < y ==> x * p + v < y * p + w
    ensures x > y ==> x * p + v > y * p + w
  {
    if x < y {
      assert (x + 1) * p <= y * p;
    } else if y < x {
      assert (y + 1) * p <= x * p;
    }
  }

  // ----- Ranges.

  datatype Comparator = Comparator(operator: string, version: Version)

  type Range = seq<Comparator>

  // ----- What section 11 says, without saying how to compute it.

  /** The texts agree up to `k`, where the first ends or has the smaller character. */
  predicate TextDiffersAt(a: string, b: string, k: int) {
    0 <= k <= |a| && k < |b| && (forall i :: 0 <= i < k ==> a[i] == b[i]) && (k < |a| ==> a[k] < b[k])
  }

  /** Numeric below alphanumeric; numeric by value; alphanumeric by the first difference. */
  ghost predicate IdentifierBelow(a: string, b: string) {
    if Numeric(a) && Numeric(b) then Value(a) < Value(b)
    else if Numeric(a) || Numeric(b) then Numeric(a)
    else exists k :: TextDiffersAt(a, b, k)
  }

  /** The lists agree up to `k`, where the first ends or has the smaller identifier. */
  ghost predicate ListDiffersAt(a: seq<string>, b: seq<string>, k: int) {
    0 <= k <= |a| && k < |b| && (forall i :: 0 <= i < k ==> a[i] == b[i]) && (k < |a| ==> IdentifierBelow(a[k], b[k]))
  }

  ghost predicate Below(a: Version, b: Version) {
    || a.major < b.major
    || (a.major == b.major && a.minor < b.minor)
    || (a.major == b.major && a.minor == b.minor && a.patch < b.patch)
    || (a.major == b.major && a.minor == b.minor && a.patch == b.patch && a.prerelease != []
        && (b.prerelease == [] || exists k :: ListDiffersAt(a.prerelease, b.prerelease, k)))
  }

  predicate CanonicalNumbers(ids: seq<string>) {
    forall i :: 0 <= i < |ids| && Numeric(ids[i]) ==> Canonical(ids[i])
  }

  lemma {:induction false} TextBelowIff(a: string, b: string)
    ensures CompareText(a, b) < 0 <==> exists k :: TextDiffersAt(a, b, k)
    decreases |a|
  {
    if a == "" || b == "" || a[0] != b[0] {
      assert TextDiffersAt(a, b, 0) <==> CompareText(a, b) < 0;
    } else {
      TextBelowIff(a[1..], b[1..]);
      if k :| TextDiffersAt(a, b, k) {
        TextDiffersTail(a, b, k);
      }
      if k :| TextDiffersAt(a[1..], b[1..], k) {
        TextDiffersTail(a, b, k + 1);
      }
    }
  }

  lemma TextDiffersTail(a: string, b: string, k: int)
    requires a != "" && b != "" && a[0] == b[0]
    ensures TextDiffersAt(a, b, k) <==> TextDiffersAt(a[1..], b[1..], k - 1)
  {
    if TextDiffersAt(a[1..], b[1..], k - 1) {
      assert forall i :: 0 < i < k ==> a[i] == a[1..][i - 1] == b[1..][i - 1] == b[i];
    }
  }

  lemma IdentifierBelowIff(a: string, b: string)
    requires (Numeric(a) ==> Canonical(a)) && (Numeric(b) ==> Canonical(b))
    ensures CompareIdentifier(a, b) < 0 <==> IdentifierBelow(a, b)
  {
    if Numeric(a) && Numeric(b) {
      NumericByValue(a, b);
    } else if !Numeric(a) && !Numeric(b) {
      TextBelowIff(a, b);
    }
  }

  lemma {:induction false} IdentifiersBelowIff(a: seq<string>, b: seq<string>)
    requires CanonicalNumbers(a) && CanonicalNumbers(b)
    ensures CompareIdentifiers(a, b) < 0 <==> exists k :: ListDiffersAt(a, b, k)
    decreases |a|
  {
    if a == [] || b == [] {
      assert ListDiffersAt(a, b, 0) <==> CompareIdentifiers(a, b) < 0;
    } else {
      IdentifierOrder(a[0], b[0]);
      IdentifierBelowIff(a[0], b[0]);
      if a[0] != b[0] {
        assert ListDiffersAt(a, b, 0) <==> CompareIdentifiers(a, b) < 0;
      } else {
        IdentifiersBelowIff(a[1..], b[1..]);
        if k :| ListDiffersAt(a, b, k) {
          ListDiffersTail(a, b, k);
        }
        if k :| ListDiffersAt(a[1..], b[1..], k) {
          ListDiffersTail(a, b, k + 1);
        }
      }
    }
  }

  lemma ListDiffersTail(a: seq<string>, b: seq<string>, k: int)
    requires a != [] && b != [] && a[0] == b[0] && !IdentifierBelow(a[0], b[0])
    ensures ListDiffersAt(a, b, k) <==> ListDiffersAt(a[1..], b[1..], k - 1)
  {
    if ListDiffersAt(a[1..], b[1..], k - 1) {
      assert forall i :: 0 < i < k ==> a[i] == a[1..][i - 1] == b[1..][i - 1] == b[i];
    }
  }

  /** For versions without leading zeros, precedence is the order of SemVer 2.0.0 section 11. */
  lemma PrecedenceIsSection11(a: Version, b: Version)
    requires CanonicalNumbers(a.prerelease) && CanonicalNumbers(b.prerelease)
    ensures Precedence(a, b) < 0 <==> Below(a, b)
    ensures Precedence(a, b) > 0 <==> Below(b, a)
  {
    IdentifiersBelowIff(a.prerelease, b.prerelease);
    IdentifiersBelowIff(b.prerelease, a.prerelease);
    PrecedenceOrder(a, b);
    IdentifiersOrder(a.prerelease, b.prerelease);
  }

  function Matched(operator: string, comparison: int): bool {
    match operator
    case "=" => comparison == 0
    case ">" => comparison > 0
    case ">=" => comparison >= 0
    case "<" => comparison < 0
    case "<=" => comparison <= 0
    case _ => false
  }

  predicate InRange(r: Range, v: Version) {
    r != [] && forall c :: c in r ==> Matched(c.operator, Precedence(v, c.version))
  }

  method Contains(r: Range, v: Version) returns (contained: bool)
    ensures contained == InRange(r, v)
  {
    for i := 0 to |r|
      invariant forall k :: 0 <= k < i ==> Matched(r[k].operator, Precedence(v, r[k].version))
    {
      var comparison := Compare(v, r[i].version);
      if !Matched(r[i].operator, comparison) {
        return false;
      }
    }
    return |r| > 0;
  }

  /** What each operator asks for, in terms of the order of section 11; any other operator is never met. */
  lemma OperatorMeans(operator: string, w: Version, v: Version)
    requires CanonicalNumbers(v.prerelease) && CanonicalNumbers(w.prerelease)
    ensures var inside := InRange([Comparator(operator, w)], v);
            && (operator == "<" ==> (inside <==> Below(v, w)))
            && (operator == "<=" ==> (inside <==> !Below(w, v)))
            && (operator == ">" ==> (inside <==> Below(w, v)))
            && (operator == ">=" ==> (inside <==> !Below(v, w)))
            && (operator == "=" ==> (inside <==> v.(build := w.build) == w))
            && (operator !in {"<", "<=", ">", ">=", "="} ==> !inside)
  {
    PrecedenceIsSection11(v, w);
    PrecedenceOrder(v, w);
    var only := [Comparator(operator, w)];
    assert only[0] in only && InRange(only, v) == Matched(operator, Precedence(v, w));
  }

  /** A version is in a range when each of its comparators, of which there is at least one, admits it. */
  lemma InRangeMeans(r: Range, v: Version)
    ensures InRange(r, v) <==> r != [] && forall i :: 0 <= i < |r| ==> InRange([r[i]], v)
  {
    forall i | 0 <= i < |r| ensures InRange([r[i]], v) <==> Matched(r[i].operator, Precedence(v, r[i].version)) {
      assert [r[i]][0] == r[i];
    }
  }

  /** Every range is convex: what lies between two contained versions is contained. */
  lemma RangeIsConvex(r: Range, low: Version, v: Version, high: Version)
    requires InRange(r, low) && InRange(r, high)
    requires Precedence(low, v) <= 0 && Precedence(v, high) <= 0
    ensures InRange(r, v)
  {
    forall c | c in r ensures Matched(c.operator, Precedence(v, c.version)) {
      var bound := c.version;
      PrecedenceOrder(bound, low);
      PrecedenceOrder(bound, v);
      PrecedenceOrder(bound, high);
      if Precedence(bound, low) <= 0 {
        PrecedenceTransitive(bound, low, v);
      }
      if Precedence(high, bound) <= 0 {
        PrecedenceTransitive(v, high, bound);
      }
    }
  }

  /** And blind to build metadata. */
  lemma RangeIgnoresBuild(r: Range, v: Version, build: seq<string>)
    ensures InRange(r, v) <==> InRange(r, v.(build := build))
  {
    forall c | c in r ensures Precedence(v, c.version) == Precedence(v.(build := build), c.version) {}
  }
}
