/**
 * Stable versions: compareStableVersions of scripts/release-evidence.ts, which compares decimal
 * identifiers as text so that no size of number loses precision.
 */
module Versions {
  import opened Lists

  // ---- Decimal identifiers ----

  predicate IsDigit(c: char) {
    '0' <= c <= '9'
  }

  predicate AllDigits(s: string) {
    forall i :: 0 <= i < |s| ==> IsDigit(s[i])
  }

  /** `0|[1-9]\d*` */
  predicate IsIdentifier(s: string) {
    s == "0" || (s != "" && AllDigits(s) && s[0] != '0')
  }

  function Digit(c: char): nat
    requires IsDigit(c)
  {
    c as int - '0' as int
  }

  function Pow10(n: nat): (p: nat)
    ensures p > 0
  {
    if n == 0 then 1 else 10 * Pow10(n - 1)
  }

  function Value(s: string): nat
    requires AllDigits(s)
  {
    if s == "" then 0 else Digit(s[0]) * Pow10(|s| - 1) + Value(s[1..])
  }

  lemma {:induction false} ValueBound(s: string)
    requires AllDigits(s)
    ensures Value(s) < Pow10(|s|)
  {
    if s != "" {
      ValueBound(s[1..]);
      TimesAtMost(Digit(s[0]), Pow10(|s| - 1));
    }
  }

  lemma {:induction false} Pow10Monotone(m: nat, n: nat)
    requires m <= n
    ensures Pow10(m) <= Pow10(n)
  {
    if m < n {
      Pow10Monotone(m, n - 1);
    }
  }

  function Codes(s: string): (c: seq<int>)
    ensures |c| == |s|
  {
    seq(|s|, i requires 0 <= i < |s| => s[i] as int)
  }

  /** compareNumericIdentifiers: length first, then string order. */
  function CompareIdentifiers(left: string, right: string): int {
    if |left| != |right| then (if |left| < |right| then -1 else 1)
    else if LexLess(Codes(left), Codes(right)) then -1
    else if LexLess(Codes(right), Codes(left)) then 1
    else 0
  }

  function Sign(n: int): int {
    if n < 0 then -1 else if n > 0 then 1 else 0
  }

  lemma {:induction false} SameLengthOrder(left: string, right: string)
    requires AllDigits(left) && AllDigits(right) && |left| == |right|
    ensures LexLess(Codes(left), Codes(right)) <==> Value(left) < Value(right)
  {
    if left != "" {
      assert Codes(left)[1..] == Codes(left[1..]) && Codes(right)[1..] == Codes(right[1..]);
      SameLengthOrder(left[1..], right[1..]);
      ValueBound(left[1..]);
      ValueBound(right[1..]);
      LeadingDigit(Digit(left[0]), Digit(right[0]), Pow10(|left| - 1), Value(left[1..]), Value(right[1..]));
    }
  }

  lemma LeadingDigit(a: nat, b: nat, p: nat, x: nat, y: nat)
    requires x < p && y < p
    ensures a < b ==> a * p + x < b * p + y
    ensures b < a ==> b * p + y < a * p + x
  {
    if a < b {
      assert (a + 1) * p <= b * p;
    } else if b < a {
      assert (b + 1) * p <= a * p;
    }
  }

  lemma LongerIsLarger(left: string, right: string)
    requires IsIdentifier(left) && IsIdentifier(right) && |left| < |right|
    ensures Value(left) < Value(right)
  {
    ValueBound(left);
    Pow10Monotone(|left|, |right| - 1);
    FirstDigitCounts(right);
  }

  lemma FirstDigitCounts(s: string)
    requires AllDigits(s) && s != "" && s[0] != '0'
    ensures Value(s) >= Pow10(|s| - 1)
  {
    TimesAtLeast(Digit(s[0]), Pow10(|s| - 1));
  }

  lemma TimesAtLeast(d: nat, p: nat)
    requires d >= 1
    ensures d * p >= p
  {
    assert d * p == p + (d - 1) * p;
  }

  lemma TimesAtMost(d: nat, p: nat)
    requires d <= 9
    ensures d * p <= 9 * p
  {
    assert 9 * p == d * p + (9 - d) * p;
  }

  /** Without leading zeros, comparing as text is comparing as numbers, at any size. */
  lemma CompareIsNumeric(left: string, right: string)
    requires IsIdentifier(left) && IsIdentifier(right)
    ensures CompareIdentifiers(left, right) == Sign(Value(left) - Value(right))
    ensures CompareIdentifiers(left, right) == 0 <==> left == right
  {
    if |left| < |right| {
      LongerIsLarger(left, right);
    } else if |right| < |left| {
      LongerIsLarger(right, left);
    } else {
      SameLengthOrder(left, right);
      SameLengthOrder(right, left);
      LexTotal(Codes(left), Codes(right));
      if Codes(left) == Codes(right) {
        CodesInjective(left, right);
      }
    }
  }

  lemma CodesInjective(left: string, right: string)
    requires Codes(left) == Codes(right)
    ensures left == right
  {
    assert |left| == |right|;
    forall i | 0 <= i < |left| ensures left[i] == right[i] {
      assert Codes(left)[i] == Codes(right)[i];
    }
  }

  // ---- Stable versions ----

  /** `X.Y.Z` with three identifiers. */
  predicate IsStable(version: string) {
    && |Split(version, '.')| == 3
    && forall i :: 0 <= i < 3 ==> IsIdentifier(Split(version, '.')[i])
  }

  datatype VersionError = NotStable | NoVersions | BadRunId | BadSourceSha | MixedLines | NoDate

  function CompareParts(left: seq<string>, right: seq<string>): int
    requires |left| == |right|
  {
    if left == [] then 0
    else if CompareIdentifiers(left[0], right[0]) != 0 then CompareIdentifiers(left[0], right[0])
    else CompareParts(left[1..], right[1..])
  }

  function CompareStable(left: string, right: string): Result<int, VersionError> {
    if !IsStable(left) || !IsStable(right) then Err(NotStable)
    else Ok(CompareParts(Split(left, '.'), Split(right, '.')))
  }

  method CompareStableVersions(left: string, right: string) returns (r: Result<int, VersionError>)
    ensures r == CompareStable(left, right)
  {
    if !IsStable(left) || !IsStable(right) {
      return Err(NotStable);
    }
    var leftParts, rightParts := Split(left, '.'), Split(right, '.');
    var index := 0;
    while index < |leftParts|
      invariant 0 <= index <= |leftParts|
      invariant CompareParts(leftParts, rightParts) == CompareParts(leftParts[index..], rightParts[index..])
    {
      var comparison := CompareIdentifiers(leftParts[index], rightParts[index]);
      if comparison != 0 {
        return Ok(comparison);
      }
      assert leftParts[index..][1..] == leftParts[index + 1..] && rightParts[index..][1..] == rightParts[index + 1..];
      index := index + 1;
    }
    r := Ok(0);
  }

  /** Major, minor and patch as numbers. */
  function Numbers(version: string): (nat, nat, nat)
    requires IsStable(version)
  {
    var parts := Split(version, '.');
    assert IsIdentifier(parts[0]) && IsIdentifier(parts[1]) && IsIdentifier(parts[2]);
    (Value(parts[0]), Value(parts[1]), Value(parts[2]))
  }

  /** Item 11 of Semantic Versioning 2.0.0 for versions without a pre-release part. */
  predicate Precedes(a: (nat, nat, nat), b: (nat, nat, nat)) {
    a.0 < b.0 || (a.0 == b.0 && (a.1 < b.1 || (a.1 == b.1 && a.2 < b.2)))
  }

  lemma ComparePartsOfThree(left: seq<string>, right: seq<string>)
    requires |left| == |right| == 3
    ensures CompareParts(left, right)
         == if CompareIdentifiers(left[0], right[0]) != 0 then CompareIdentifiers(left[0], right[0])
            else if CompareIdentifiers(left[1], right[1]) != 0 then CompareIdentifiers(left[1], right[1])
            else CompareIdentifiers(left[2], right[2])
  {
    hide CompareIdentifiers;
    assert left[1..][1..] == left[2..] && right[1..][1..] == right[2..];
    assert CompareParts(left[2..], right[2..]) == CompareIdentifiers(left[2], right[2]) by {
      assert left[2..][1..] == [] && right[2..][1..] == [];
      assert CompareParts([], []) == 0;
    }
    assert CompareParts(left[1..], right[1..])
        == if CompareIdentifiers(left[1], right[1]) != 0 then CompareIdentifiers(left[1], right[1])
           else CompareIdentifiers(left[2], right[2]);
  }

  /**
   * The comparison is numeric precedence, and only equal version strings compare equal, so
   * it is a total order on stable versions.
   */
  lemma CompareStableIsPrecedence(left: string, right: string)
    requires IsStable(left) && IsStable(right)
    ensures CompareStable(left, right).Ok?
    ensures CompareStable(left, right).value == -1 <==> Precedes(Numbers(left), Numbers(right))
    ensures CompareStable(left, right).value == 1 <==> Precedes(Numbers(right), Numbers(left))
    ensures CompareStable(left, right).value == 0 <==> left == right
  {
    var l, r := Split(left, '.'), Split(right, '.');
    assert forall i :: 0 <= i < 3 ==> IsIdentifier(l[i]) && IsIdentifier(r[i]);
    hide CompareIdentifiers, IsIdentifier, Value, Split;
    ComparePartsOfThree(l, r);
    CompareIsNumeric(l[0], r[0]);
    CompareIsNumeric(l[1], r[1]);
    CompareIsNumeric(l[2], r[2]);
    if l[0] == r[0] && l[1] == r[1] && l[2] == r[2] {
      assert l == r;
      JoinSplit(left, '.');
      JoinSplit(right, '.');
    }
  }

  // ---- Release forms ----

  predicate IsHex(c: char) {
    IsDigit(c) || 'a' <= c <= 'f'
  }

  /** `X.Y.Z-nightly.<utc>.<run>.g<12 hex digits>` */
  predicate IsNightly(version: string) {
    var parts := Split(version, '.');
    && |parts| == 6
    && IsIdentifier(parts[0])
    && IsIdentifier(parts[1])
    && |parts[2]| > 8
    && IsIdentifier(parts[2][..|parts[2]| - 8])
    && parts[2][|parts[2]| - 8..] == "-nightly"
    && IsIdentifier(parts[3])
    && IsIdentifier(parts[4])
    && |parts[5]| == 13
    && parts[5][0] == 'g'
    && forall i :: 1 <= i < 13 ==> IsHex(parts[5][i])
  }

  predicate IsRelease(version: string) {
    IsStable(version) || IsNightly(version)
  }

  // ---- Printing decimals ----

  function ToDecimal(n: nat): (s: string)
    ensures IsIdentifier(s)
  {
    if n < 10 then [DigitChar(n)] else ToDecimal(n / 10) + [DigitChar(n % 10)]
  }

  function DigitChar(d: nat): (c: char)
    requires d < 10
    ensures IsDigit(c) && Digit(c) == d && (c == '0' <==> d == 0)
  {
    ('0' as int + d) as char
  }

  lemma TenTimes(d: nat, p: nat)
    ensures d * (10 * p) == 10 * (d * p)
  {
  }

  lemma {:induction false} ValueAppend(s: string, c: char)
    requires AllDigits(s) && IsDigit(c)
    ensures Value(s + [c]) == 10 * Value(s) + Digit(c)
  {
    hide Digit;
    if s == "" {
      assert s + [c] == [c] && [c][1..] == "" && Value([c]) == Digit(c) * Pow10(0) + Value("");
    } else {
      assert (s + [c])[1..] == s[1..] + [c] && (s + [c])[0] == s[0];
      ValueAppend(s[1..], c);
      TenTimes(Digit(s[0]), Pow10(|s| - 1));
    }
  }

  lemma {:induction false} ToDecimalValue(n: nat)
    ensures Value(ToDecimal(n)) == n
  {
    if n < 10 {
      var s := ToDecimal(n);
      assert s[1..] == "" && Value(s) == Digit(s[0]) * Pow10(0) + Value("");
    } else {
      ToDecimalValue(n / 10);
      ValueAppend(ToDecimal(n / 10), DigitChar(n % 10));
    }
  }
}
