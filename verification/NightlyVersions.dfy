/** Nightly versions as scripts/nightly-release.ts derives them from stable versions and a timestamp. */
module NightlyVersions {
  import opened Lists
  import opened Versions

  // ---- Timestamps ----

  datatype UtcFields = Utc(year: int, month: nat, day: nat, hour: nat, minute: nat, second: nat, millisecond: nat)

  /** A valid date: the years a Date can hold, and the other fields in their ranges. */
  type Timestamp = t: UtcFields |
    && -271821 <= t.year <= 275760 && 1 <= t.month <= 12 && 1 <= t.day <= 31
    && t.hour < 24 && t.minute < 60 && t.second < 60 && t.millisecond < 1000
    witness Utc(2026, 1, 1, 0, 0, 0, 0)

  /** The last `width` decimal digits. */
  function Padded(n: nat, width: nat): (s: string)
    ensures |s| == width && AllDigits(s)
  {
    if width == 0 then "" else Padded(n / 10, width - 1) + [DigitChar(n % 10)]
  }

  /** Four digits for the years 0 to 9999, a sign and six digits for all others. */
  function YearText(year: int): string {
    if 0 <= year <= 9999 then Padded(year, 4)
    else if year < 0 then "-" + Padded(-year, 6)
    else "+" + Padded(year, 6)
  }

  function IsoText(t: Timestamp): string {
    YearText(t.year) + ("-" + (Padded(t.month, 2) + ("-" + (Padded(t.day, 2) + ("T" + (Padded(t.hour, 2)
    + (":" + (Padded(t.minute, 2) + (":" + (Padded(t.second, 2) + ("." + (Padded(t.millisecond, 3) + "Z"))))))))))))
  }

  const MARKS := "-:TZ."

  function WithoutMarks(s: string): string {
    if s == "" then "" else (if s[0] in MARKS then "" else [s[0]]) + WithoutMarks(s[1..])
  }

  /** utcIdentifier: the ISO text without its marks, cut to fourteen characters. */
  function UtcIdentifier(t: Timestamp): string {
    var digits := WithoutMarks(IsoText(t));
    if |digits| > 14 then digits[..14] else digits
  }

  lemma {:induction false} WithoutMarksConcat(a: string, b: string)
    ensures WithoutMarks(a + b) == WithoutMarks(a) + WithoutMarks(b)
  {
    if a == "" {
      assert a + b == b;
    } else {
      assert (a + b)[1..] == a[1..] + b;
      WithoutMarksConcat(a[1..], b);
    }
  }

  lemma {:induction false} DigitsHaveNoMarks(s: string)
    requires AllDigits(s)
    ensures WithoutMarks(s) == s
  {
    if s != "" {
      DigitsHaveNoMarks(s[1..]);
      assert IsDigit(s[0]);
    }
  }

  lemma MarkIsDropped(mark: string, digits: string, rest: string)
    requires |mark| == 1 && mark[0] in MARKS && AllDigits(digits)
    ensures WithoutMarks(mark + (digits + rest)) == digits + WithoutMarks(rest)
  {
    WithoutMarksConcat(mark, digits + rest);
    WithoutMarksConcat(digits, rest);
    DigitsHaveNoMarks(digits);
    assert mark[1..] == "";
    assert WithoutMarks(mark) == "";
  }

  function DateDigits(t: Timestamp): (s: string)
    ensures |s| == 13 && AllDigits(s)
  {
    Padded(t.month, 2) + (Padded(t.day, 2) + (Padded(t.hour, 2) + (Padded(t.minute, 2)
    + (Padded(t.second, 2) + Padded(t.millisecond, 3)))))
  }

  /** The marks of a date are all it loses. */
  lemma IsoDigits(t: Timestamp)
    ensures WithoutMarks(IsoText(t)) == WithoutMarks(YearText(t.year)) + DateDigits(t)
  {
    hide WithoutMarks, Padded;
    var ms := Padded(t.millisecond, 3);
    assert ms + "Z" == ms + ("Z" + ("" + ""));
    MarkIsDropped("Z", "", "");
    assert WithoutMarks("") == "" by { NothingLeft(); }
    var s6 := "." + (ms + "Z");
    MarkIsDropped(".", ms, "Z");
    assert "Z" == "Z" + ("" + "");
    var s5 := ":" + (Padded(t.second, 2) + s6);
    MarkIsDropped(":", Padded(t.second, 2), s6);
    var s4 := ":" + (Padded(t.minute, 2) + s5);
    MarkIsDropped(":", Padded(t.minute, 2), s5);
    var s3 := "T" + (Padded(t.hour, 2) + s4);
    MarkIsDropped("T", Padded(t.hour, 2), s4);
    var s2 := "-" + (Padded(t.day, 2) + s3);
    MarkIsDropped("-", Padded(t.day, 2), s3);
    var s1 := "-" + (Padded(t.month, 2) + s2);
    MarkIsDropped("-", Padded(t.month, 2), s2);
    WithoutMarksConcat(YearText(t.year), s1);
  }

  lemma NothingLeft()
    ensures WithoutMarks("") == ""
  {
  }

  lemma FourDigits(year: nat)
    requires year <= 9999
    ensures Padded(year, 4)[0] == '0' <==> year < 1000
  {
    assert Padded(year, 4)[0] == Padded(year / 10, 3)[0] == Padded(year / 10 / 10, 2)[0] == Padded(year / 10 / 10 / 10, 1)[0];
  }

  lemma SixDigits(year: nat)
    requires year <= 999999
    ensures Padded(year, 6)[0] == '0' <==> year < 100000
  {
    var y := year / 10 / 10;
    assert Padded(year, 6)[0] == Padded(year / 10, 5)[0] == Padded(y, 4)[0];
    FourDigits(y);
  }

  lemma YearDigits(year: int)
    requires -271821 <= year <= 275760
    ensures var s := WithoutMarks(YearText(year));
            && |s| >= 1 && '.' !in s
            && (0 <= year <= 9999 ==> s == Padded(year, 4))
            && (year < 0 ==> s == Padded(-year, 6))
            && (year > 9999 ==> s == "+" + Padded(year, 6))
  {
    hide Padded;
    if 0 <= year <= 9999 {
      DigitsHaveNoMarks(Padded(year, 4));
    } else if year < 0 {
      MarkIsDropped("-", Padded(-year, 6), "");
      assert Padded(-year, 6) + "" == Padded(-year, 6);
      NothingLeft();
    } else {
      WithoutMarksConcat("+", Padded(year, 6));
      DigitsHaveNoMarks(Padded(year, 6));
      assert "+"[1..] == "" && WithoutMarks("+") == "+";
    }
  }

  /** The field is an identifier exactly for these years, and never holds a dot. */
  lemma UtcIsIdentifier(t: Timestamp)
    ensures '.' !in UtcIdentifier(t)
    ensures IsIdentifier(UtcIdentifier(t)) <==> 1000 <= t.year <= 9999 || t.year <= -100000
  {
    hide Padded, WithoutMarks, IsoText, DateDigits;
    IsoDigits(t);
    YearDigits(t.year);
    var s := WithoutMarks(YearText(t.year)) + DateDigits(t);
    assert UtcIdentifier(t) == s[..14] && s[..14][0] == s[0];
    if 0 <= t.year <= 9999 {
      FourDigits(t.year);
    } else if t.year < 0 {
      SixDigits(-t.year);
    } else {
      assert s[..14][0] == '+' && !IsDigit('+');
    }
  }

  // ---- Deriving a version ----

  predicate IsSourceSha(s: string) {
    |s| == 40 && forall i :: 0 <= i < |s| ==> IsHex(s[i])
  }

  predicate IsPositive(s: string) {
    s != "0" && IsIdentifier(s)
  }

  /** The largest patch, kept by the reduce of the source. */
  function HighestPatch(versions: seq<string>): string
    requires versions != [] && forall i :: 0 <= i < |versions| ==> IsStable(versions[i])
  {
    assert IsStable(versions[|versions| - 1]);
    var last := Split(versions[|versions| - 1], '.')[2];
    if |versions| == 1 then last
    else
      var highest := HighestPatch(versions[..|versions| - 1]);
      if CompareIdentifiers(last, highest) > 0 then last else highest
  }

  datatype Nightly = Nightly(core: string, suffix: string)

  /** deriveNightlyVersion; the version is core + suffix. A timestamp that is no date is None. */
  function DeriveNightly(versions: seq<string>, timestamp: Option<Timestamp>, runId: string, sourceSha: string)
    : Result<Nightly, VersionError>
  {
    if versions == [] then Err(NoVersions)
    else if !IsPositive(runId) then Err(BadRunId)
    else if !IsSourceSha(sourceSha) then Err(BadSourceSha)
    else if exists i :: 0 <= i < |versions| && !IsStable(versions[i]) then Err(NotStable)
    else
      var line := Split(versions[0], '.');
      if exists i :: 0 <= i < |versions| && Split(versions[i], '.')[..2] != line[..2] then Err(MixedLines)
      else if timestamp.None? then Err(NoDate)
      else
        assert IsIdentifier(HighestPatch(versions)) by {
          HighestPatchIsHighest(versions);
        }
        var nextPatch := ToDecimal(Value(HighestPatch(versions)) + 1);
        Ok(Nightly(Join([line[0], line[1], nextPatch], '.'),
                   "-nightly." + UtcIdentifier(timestamp.value) + "." + runId + ".g" + sourceSha[..12]))
  }

  lemma HigherOf(a: string, b: string)
    requires IsIdentifier(a) && IsIdentifier(b)
    ensures CompareIdentifiers(a, b) > 0 <==> Value(a) > Value(b)
  {
    hide CompareIdentifiers, Value;
    CompareIsNumeric(a, b);
  }

  lemma {:induction false} HighestPatchIsHighest(versions: seq<string>)
    requires versions != [] && forall i :: 0 <= i < |versions| ==> IsStable(versions[i])
    ensures IsIdentifier(HighestPatch(versions))
    ensures forall i :: 0 <= i < |versions| ==> Numbers(versions[i]).2 <= Value(HighestPatch(versions))
    ensures exists i :: 0 <= i < |versions| && Split(versions[i], '.')[2] == HighestPatch(versions)
  {
    hide CompareIdentifiers, Value, Split;
    var n := |versions|;
    var last := Split(versions[n - 1], '.')[2];
    assert IsStable(versions[n - 1]) && IsIdentifier(last);
    if n == 1 {
      assert Split(versions[0], '.')[2] == HighestPatch(versions);
    } else {
      HighestPatchIsHighest(versions[..n - 1]);
      var highest := HighestPatch(versions[..n - 1]);
      HigherOf(last, highest);
      var i :| 0 <= i < n - 1 && Split(versions[..n - 1][i], '.')[2] == highest;
      assert versions[..n - 1][i] == versions[i];
      assert Split(versions[n - 1], '.')[2] == HighestPatch(versions) || Split(versions[i], '.')[2] == HighestPatch(versions);
      forall j | 0 <= j < n ensures Numbers(versions[j]).2 <= Value(HighestPatch(versions)) {
        if j < n - 1 {
          assert versions[..n - 1][j] == versions[j];
        }
      }
    }
  }

  /** The X.Y.Z core of a derived nightly is a stable version strictly above every input. */
  lemma NightlyIsAboveEveryInput(versions: seq<string>, timestamp: Option<Timestamp>, runId: string, sourceSha: string)
    requires DeriveNightly(versions, timestamp, runId, sourceSha).Ok?
    ensures var core := DeriveNightly(versions, timestamp, runId, sourceSha).value.core;
            && IsStable(core)
            && forall i :: 0 <= i < |versions| ==> IsStable(versions[i]) && CompareStable(core, versions[i]) == Ok(1)
  {
    hide UtcIdentifier;
    var core := DeriveNightly(versions, timestamp, runId, sourceSha).value.core;
    var line := Split(versions[0], '.');
    assert IsStable(versions[0]);
    HighestPatchIsHighest(versions);
    var next := Value(HighestPatch(versions)) + 1;
    assert IsIdentifier(line[0]) && IsIdentifier(line[1]);
    NumbersOfJoin(line[0], line[1], ToDecimal(next));
    ToDecimalValue(next);
    hide Value, IsIdentifier, CompareStable;
    forall i | 0 <= i < |versions| ensures IsStable(versions[i]) && CompareStable(core, versions[i]) == Ok(1) {
      assert IsStable(versions[i]);
      var parts := Split(versions[i], '.');
      assert parts[..2] == line[..2] && parts[0] == parts[..2][0] && parts[1] == parts[..2][1];
      CompareStableIsPrecedence(core, versions[i]);
    }
  }

  lemma NumbersOfJoin(major: string, minor: string, patch: string)
    requires IsIdentifier(major) && IsIdentifier(minor) && IsIdentifier(patch)
    ensures var v := Join([major, minor, patch], '.');
            IsStable(v) && Numbers(v) == (Value(major), Value(minor), Value(patch))
  {
    SplitJoin([major, minor, patch], '.');
  }

  lemma TemplateIsJoin(major: string, minor: string, patch: string, utc: string, runId: string, sha: string)
    ensures Join([major, minor, patch], '.') + ("-nightly." + utc + "." + runId + ".g" + sha)
         == Join([major, minor, patch + "-nightly", utc, runId, "g" + sha], '.')
  {
    hide Join;
    var last := ["g" + sha];
    JoinStep(runId, last, '.');
    JoinStep(utc, [runId] + last, '.');
    JoinStep(patch + "-nightly", [utc] + ([runId] + last), '.');
    JoinStep(minor, [patch + "-nightly"] + ([utc] + ([runId] + last)), '.');
    JoinStep(major, [minor] + ([patch + "-nightly"] + ([utc] + ([runId] + last))), '.');
    assert [major, minor, patch + "-nightly", utc, runId, "g" + sha]
        == [major] + ([minor] + ([patch + "-nightly"] + ([utc] + ([runId] + last))));
    JoinStep(minor, [patch], '.');
    JoinStep(major, [minor] + [patch], '.');
    assert [major, minor, patch] == [major] + ([minor] + [patch]);
    JoinOne(["g" + sha], '.');
    JoinOne([patch], '.');
    assert "-nightly." == "-nightly" + ['.'] && ".g" == ['.'] + "g" && "." == ['.'];
  }

  lemma NightlyParts(major: string, minor: string, patch: string, utc: string, runId: string, sha: string)
    requires IsIdentifier(major) && IsIdentifier(minor) && IsIdentifier(patch) && IsIdentifier(runId)
    requires '.' !in utc && |sha| == 12 && forall i :: 0 <= i < 12 ==> IsHex(sha[i])
    ensures IsNightly(Join([major, minor, patch + "-nightly", utc, runId, "g" + sha], '.')) <==> IsIdentifier(utc)
  {
    hide Split, Join;
    var parts := [major, minor, patch + "-nightly", utc, runId, "g" + sha];
    assert forall i :: 0 <= i < |parts| ==> '.' !in parts[i];
    SplitJoin(parts, '.');
    assert parts[2][..|parts[2]| - 8] == patch && parts[2][|parts[2]| - 8..] == "-nightly";
    assert forall i :: 1 <= i < 13 ==> parts[5][i] == sha[i - 1];
  }

  lemma NightlyFormOfField(versions: seq<string>, timestamp: Timestamp, runId: string, sourceSha: string)
    requires DeriveNightly(versions, Some(timestamp), runId, sourceSha).Ok? && '.' !in UtcIdentifier(timestamp)
    ensures var v := DeriveNightly(versions, Some(timestamp), runId, sourceSha).value;
            IsNightly(v.core + v.suffix) <==> IsIdentifier(UtcIdentifier(timestamp))
  {
    hide Value, HighestPatch, ToDecimal, Split, Join, IsNightly, IsIdentifier, UtcIdentifier;
    assert IsStable(versions[0]);
    var line, sha, utc := Split(versions[0], '.'), sourceSha[..12], UtcIdentifier(timestamp);
    assert IsIdentifier(line[0]) && IsIdentifier(line[1]);
    HighestPatchIsHighest(versions);
    IdentifierDigits(HighestPatch(versions));
    var patch := ToDecimal(Value(HighestPatch(versions)) + 1);
    TemplateIsJoin(line[0], line[1], patch, utc, runId, sha);
    NightlyParts(line[0], line[1], patch, utc, runId, sha);
  }

  /**
   * A derived nightly has the nightly form exactly for years of four digits, and for the years
   * before -99999, whose sign is dropped with the other marks.
   */
  lemma NightlyForm(versions: seq<string>, timestamp: Timestamp, runId: string, sourceSha: string)
    requires DeriveNightly(versions, Some(timestamp), runId, sourceSha).Ok?
    ensures var v := DeriveNightly(versions, Some(timestamp), runId, sourceSha).value;
            IsNightly(v.core + v.suffix) <==> 1000 <= timestamp.year <= 9999 || timestamp.year <= -100000
  {
    hide UtcIdentifier, DeriveNightly, IsNightly, IsIdentifier;
    UtcIsIdentifier(timestamp);
    NightlyFormOfField(versions, timestamp, runId, sourceSha);
  }

  const NEW_YEAR_10000: Timestamp := Utc(10000, 1, 1, 0, 0, 0, 0)

  /** On New Year's Day of the year 10000 a version is derived and is not of the nightly form. */
  lemma YearTenThousandIsNoNightly(version: string, runId: string, sourceSha: string)
    requires IsStable(version) && IsPositive(runId) && IsSourceSha(sourceSha)
    ensures var v := DeriveNightly([version], Some(NEW_YEAR_10000), runId, sourceSha);
            v.Ok? && !IsNightly(v.value.core + v.value.suffix)
  {
    hide UtcIdentifier, IsNightly, IsStable, IsPositive, IsSourceSha, Value, ToDecimal, Join;
    assert [version][0] == version;
    assert DeriveNightly([version], Some(NEW_YEAR_10000), runId, sourceSha).Ok?;
    NightlyForm([version], NEW_YEAR_10000, runId, sourceSha);
  }

  lemma IdentifierDigits(s: string)
    requires IsIdentifier(s)
    ensures AllDigits(s)
  {
  }
}
