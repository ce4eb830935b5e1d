/**
 The slug search shared by pages and spaces: the base slug itself, then `base-1`,
 `base-2`, ..., until a candidate is free.
 */
module Slugs {

  function Digit(d: nat): char
    requires d < 10
  {
    '0' + d as char
  }

  /** The decimal form of a number, as in a template string. */
  function Decimal(n: nat): string {
    if n < 10 then [Digit(n)] else Decimal(n / 10) + [Digit(n % 10)]
  }

  function DigitValue(c: char): nat {
    if '0' <= c <= '9' then (c - '0') as nat else 0
  }

  /** Reading a decimal back. */
  function Value(s: string): nat {
    if s == "" then 0 else 10 * Value(s[..|s| - 1]) + DigitValue(s[|s| - 1])
  }

  lemma {:induction false} DecimalRoundTrip(n: nat)
    ensures Value(Decimal(n)) == n
  {
    var s := Decimal(n);
    assert DigitValue(Digit(n % 10)) == n % 10;
    if n < 10 {
      assert s[..|s| - 1] == "";
    } else {
      DecimalRoundTrip(n / 10);
      assert s[..|s| - 1] == Decimal(n / 10);
    }
  }

  /** The slug tried by the n-th lookup, counting from 0. */
  function Candidate(base: string, n: nat): string {
    if n == 0 then base else base + "-" + Decimal(n)
  }

  predicate IsDigit(c: char) {
    '0' <= c <= '9'
  }

  /** A decimal is made of digits, and only 0 begins with one of value 0. */
  lemma {:induction false} DecimalDigits(n: nat)
    ensures Decimal(n) != "" && forall i | 0 <= i < |Decimal(n)| :: IsDigit(Decimal(n)[i])
    ensures n > 0 ==> Decimal(n)[0] != '0'
  {
    if n >= 10 {
      DecimalDigits(n / 10);
    }
  }

  /** The candidates: the base, then the base, a hyphen and the number in digits without leading zeros. */
  lemma CandidateMeaning(base: string, n: nat)
    ensures n == 0 ==> Candidate(base, n) == base
    ensures n > 0 ==> exists digits: string :: Candidate(base, n) == base + ['-'] + digits && Writes(digits, n)
  {
    if n > 0 {
      DecimalDigits(n);
      DecimalRoundTrip(n);
      assert Writes(Decimal(n), n);
    }
  }

  /** The digits, without a leading zero, write this positive number. */
  ghost predicate Writes(digits: string, n: nat) {
    && digits != "" && digits[0] != '0'
    && (forall i | 0 <= i < |digits| :: IsDigit(digits[i]))
    && Value(digits) == n
  }

  lemma CandidatesDiffer(base: string, m: nat, n: nat)
    requires m != n
    ensures Candidate(base, m) != Candidate(base, n)
  {
    if m > 0 && n > 0 {
      DecimalRoundTrip(m);
      DecimalRoundTrip(n);
      assert Candidate(base, m)[|base| + 1..] == Decimal(m);
      assert Candidate(base, n)[|base| + 1..] == Decimal(n);
    }
  }

  /** Distinct candidates that are all taken are at most as many as the taken slugs. */
  lemma {:induction false} ProbesFit(base: string, taken: set<string>, probes: nat)
    requires forall k | 0 <= k < probes :: Candidate(base, k) in taken
    ensures probes <= |taken|
  {
    if probes > 0 {
      var last := Candidate(base, probes - 1);
      forall k | 0 <= k < probes - 1 ensures Candidate(base, k) in taken - {last} {
        CandidatesDiffer(base, k, probes - 1);
      }
      ProbesFit(base, taken - {last}, probes - 1);
    }
  }

  /** The n-th candidate is free and all the candidates before it are taken. */
  ghost predicate IsFirstFree(base: string, taken: set<string>, n: nat) {
    && Candidate(base, n) !in taken
    && forall k | 0 <= k < n :: Candidate(base, k) in taken
  }

  /** The search ends: some candidate among the first |taken| + 1 is free. */
  lemma {:induction false} SearchEnds(base: string, taken: set<string>, i: nat)
    requires forall k | 0 <= k < i :: Candidate(base, k) in taken
    ensures exists n: nat :: n <= |taken| && IsFirstFree(base, taken, n)
    decreases |taken| + 1 - i
  {
    ProbesFit(base, taken, i);
    if Candidate(base, i) in taken {
      SearchEnds(base, taken, i + 1);
    } else {
      assert IsFirstFree(base, taken, i);
    }
  }

  /** How many candidates are taken before the first free one. */
  ghost function FreeIndex(base: string, taken: set<string>): (n: nat)
    ensures n <= |taken| && IsFirstFree(base, taken, n)
  {
    SearchEnds(base, taken, 0);
    var n: nat :| n <= |taken| && IsFirstFree(base, taken, n);
    n
  }

  /** The slug the search settles on. */
  ghost function FreeSlug(base: string, taken: set<string>): (slug: string)
    ensures slug !in taken
  {
    Candidate(base, FreeIndex(base, taken))
  }

  lemma FirstFreeIsUnique(base: string, taken: set<string>, m: nat, n: nat)
    requires IsFirstFree(base, taken, m) && IsFirstFree(base, taken, n)
    ensures m == n
  {
    assert Candidate(base, m) !in taken && Candidate(base, n) !in taken;
  }

  /**
   `generateUniqueSlug`: each round looks one candidate up.  With n slugs taken the
   search makes at most n + 1 lookups and returns the first free candidate.
   */
  method GenerateUniqueSlug(base: string, taken: set<string>) returns (slug: string, lookups: nat)
    ensures 1 <= lookups <= |taken| + 1
    ensures IsFirstFree(base, taken, lookups - 1) && slug == Candidate(base, lookups - 1)
    ensures slug == FreeSlug(base, taken)
  {
    slug := base;
    var counter := 1;
    while slug in taken
      invariant counter >= 1 && slug == Candidate(base, counter - 1)
      invariant forall k | 0 <= k < counter - 1 :: Candidate(base, k) in taken
      decreases |taken| + 1 - counter
    {
      ProbesFit(base, taken, counter);
      slug := base + "-" + Decimal(counter);
      counter := counter + 1;
    }
    ProbesFit(base, taken, counter - 1);
    FirstFreeIsUnique(base, taken, counter - 1, FreeIndex(base, taken));
    lookups := counter;
  }
}
