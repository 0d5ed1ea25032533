/**
 * Decimal text: what strconv.Itoa writes and strconv.Atoi reads, on unsigned text.
 *
 * Atoi fails above the largest int of a 64-bit machine. Text without leading zeros is the
 * canonical form: it is what Itoa writes, and among such texts the longer one is the larger
 * number, which is what the version code relies on when it compares lengths before digits.
 */
module Decimal {
  import opened Wrappers

  /** The largest value of Go's int on a 64-bit machine. */
  const MAX_INT := 0x7FFF_FFFF_FFFF_FFFF

  predicate IsDigit(c: char) {
    '0' <= c <= '9'
  }

  /** Nonempty and all digits. */
  predicate Numeric(s: string) {
    s != "" && forall i :: 0 <= i < |s| ==> IsDigit(s[i])
  }

  function DigitValue(c: char): (d: nat)
    requires IsDigit(c)
    ensures d < 10
  {
    c as int - '0' as int
  }

  function Digit(d: nat): (c: char)
    requires d < 10
    ensures IsDigit(c) && DigitValue(c) == d
  {
    ('0' as int + d) as char
  }

  function Value(s: string): nat
    requires forall i :: 0 <= i < |s| ==> IsDigit(s[i])
  {
    if s == "" then 0 else 10 * Value(s[..|s| - 1]) + DigitValue(s[|s| - 1])
  }

  /** Digits without a superfluous leading zero. */
  predicate Canonical(s: string) {
    Numeric(s) && (|s| > 1 ==> s[0] != '0')
  }

  function Itoa(n: nat): (s: string)
    ensures Canonical(s) && Value(s) == n
    ensures n > 0 ==> s[0] != '0'
  {
    if n < 10 then [Digit(n)]
    else
      var front := Itoa(n / 10);
      assert (front + [Digit(n % 10)])[..|front|] == front;
      front + [Digit(n % 10)]
  }

  function Atoi(s: string): Option<nat> {
    if Numeric(s) && Value(s) <= MAX_INT then Some(Value(s)) else None
  }

  lemma {:induction false} ItoaOfValue(s: string)
    requires Canonical(s)
    ensures Itoa(Value(s)) == s
    decreases |s|
  {
    var front, last := s[..|s| - 1], s[|s| - 1];
    assert s == front + [last];
    if front != "" {
      ItoaOfValue(front);
      LeadingValue(front);
      var n := Value(s);
      assert n == 10 * Value(front) + DigitValue(last);
      assert n / 10 == Value(front) && n % 10 == DigitValue(last);
    }
  }

  lemma {:induction false} LeadingValue(s: string)
    requires Numeric(s) && s[0] != '0'
    ensures Value(s) > 0
    decreases |s|
  {
    if |s| > 1 {
      LeadingValue(s[..|s| - 1]);
    }
  }

  function Pow10(n: nat): nat {
    if n == 0 then 1 else 10 * Pow10(n - 1)
  }

  lemma {:induction false} ValueBelow(s: string)
    requires forall i :: 0 <= i < |s| ==> IsDigit(s[i])
    ensures Value(s) < Pow10(|s|)
    decreases |s|
  {
    if s != "" {
      ValueBelow(s[..|s| - 1]);
    }
  }

  lemma {:induction false} ValueAtLeast(s: string)
    requires Numeric(s) && s[0] != '0'
    ensures Pow10(|s| - 1) <= Value(s)
    decreases |s|
  {
    if |s| > 1 {
      ValueAtLeast(s[..|s| - 1]);
    }
  }

  lemma {:induction false} Pow10Grows(a: nat, b: nat)
    requires a <= b
    ensures Pow10(a) <= Pow10(b)
  {
    if a < b {
      Pow10Grows(a, b - 1);
    }
  }

  /** Of two canonical numbers the shorter one is the smaller. */
  lemma {:induction false} ShorterIsSmaller(a: string, b: string)
    requires Canonical(a) && Canonical(b) && |a| < |b|
    ensures Value(a) < Value(b)
  {
    ValueBelow(a);
    ValueAtLeast(b);
    Pow10Grows(|a|, |b| - 1);
  }

  /** Reading the first digit first. */
  lemma {:induction false} ValueFromFront(s: string)
    requires Numeric(s)
    ensures Value(s) == DigitValue(s[0]) * Pow10(|s| - 1) + Value(s[1..])
    decreases |s|
  {
    if |s| > 1 {
      var front := s[..|s| - 1];
      ValueFromFront(front);
      assert s[1..][..|s| - 2] == front[1..];
      assert DigitValue(s[0]) * Pow10(|s| - 1) == 10 * (DigitValue(s[0]) * Pow10(|s| - 2));
    }
  }
}
