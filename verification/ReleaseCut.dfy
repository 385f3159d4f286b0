/**
 * Exactly when the release cut of scripts/release.ts adds its version to a changelog, well-formed
 * or not, and when it refuses.
 */
module ReleaseCut {
  import opened Lists
  import opened Text
  import opened ChangelogText
  import opened ChangelogRegion
  import opened ReleaseHistory

  // ---- Text put behind a text ----

  function FrontLines(base: string): seq<string> {
    var lines := Split(base, '\n');
    lines[..|lines| - 1]
  }

  /** The line a text ends in; empty when the text ends with a line break. */
  function LastLine(base: string): string {
    var lines := Split(base, '\n');
    lines[|lines| - 1]
  }

  lemma {:induction false} SplitGlue(base: string, s: string)
    ensures Split(base + s, '\n') == FrontLines(base) + ([LastLine(base) + Split(s, '\n')[0]] + Split(s, '\n')[1..])
    decreases |base|
  {
    hide Split;
    var i := IndexOf(base, '\n');
    if i == |base| {
      assert base[..i] == base;
      SplitNone(base, '\n');
      SplitPrefixed(base, s, '\n');
    } else {
      var first, rest := base[..i], base[i + 1..];
      assert base == first + "\n" + rest && base + s == first + "\n" + (rest + s);
      SplitStep(first, '\n', rest);
      SplitStep(first, '\n', rest + s);
      SplitGlue(rest, s);
      assert FrontLines(base) == [first] + FrontLines(rest) && LastLine(base) == LastLine(rest);
    }
  }

  /** The releases of a text glued to a line: those of its three parts. */
  lemma ReleasesGlued(base: string, text: string, rest: string)
    requires '\n' !in text
    ensures ReleaseHeadings(Split(base + (text + rest), '\n'))
         == ReleaseHeadings(FrontLines(base))
            + (ReleaseOf(LastLine(base) + text + Split(rest, '\n')[0]) + ReleaseHeadings(Split(rest, '\n')[1..]))
  {
    hide ReleaseHeadings, Split, ReleaseOf, FrontLines, LastLine;
    SplitGlue(base, text + rest);
    SplitPrefixed(text, rest, '\n');
    var line, more := LastLine(base) + text + Split(rest, '\n')[0], Split(rest, '\n')[1..];
    assert LastLine(base) + (text + Split(rest, '\n')[0]) == line;
    ReleasesConcat(FrontLines(base), [line] + more);
    ReleasesConcat([line], more);
    ReleasesOne(line);
  }

  // ---- A bracket in the middle of a line ----

  lemma {:induction false} TrimStartBefore(s: string, z: string)
    requires TrimStart(s) != ""
    ensures TrimStart(s + z) == TrimStart(s) + z
  {
    var pre := TrimStartParts(s);
    assert s + z == pre + (TrimStart(s) + z);
    TrimStartIs(pre, TrimStart(s) + z);
  }

  lemma {:induction false} TrimStartBlank(s: string, z: string)
    requires TrimStart(s) == "" && z != "" && !IsSpace(z[0])
    ensures TrimStart(s + z) == z
  {
    var pre := TrimStartParts(s);
    assert pre == s;
    TrimStartIs(s, z);
  }

  lemma TrimKeepsMark(s: string, c: char)
    requires c in s && !IsSpace(c)
    ensures c in Trim(s)
  {
    hide IsSpace, Trim;
    var pre, post := Text.TrimParts(s);
    assert s == pre + Trim(s) + post;
    assert c !in pre && c !in post;
  }

  /** A version text with a hash in it is a release of its own. */
  lemma HashIsRelease(version: string)
    requires '#' in version
    ensures Lower(Trim(version)) != "unreleased"
  {
    hide Trim;
    PlainCharacters();
    TrimKeepsMark(version, '#');
    var t := Trim(version);
    var i :| 0 <= i < |t| && t[i] == '#';
    assert Lower(t)[i] == '#';
    assert '#' !in "unreleased";
  }

  /** The releases of a line that holds a bracketed heading behind some other text. */
  function MidReleases(x: string, a: string): seq<string> {
    if !IsVersionHeading(x) then []
    else
      var y := TrimStart(x[2..]);
      if y == "" || y[0] != '[' then []
      else if ']' in y[1..] then ReleaseOf(x)
      else [Trim(y[1..] + ("## [" + a))]
  }

  lemma MidLine(x: string, a: string, s: string)
    requires x != "" && ']' !in a && s != "" && s[0] == ']'
    ensures ReleaseOf(x + ("## [" + (a + s))) == MidReleases(x, a)
  {
    hide IsSpace, TrimStart, Trim;
    PlainCharacters();
    var z := "## [" + (a + s);
    var line := x + z;
    assert z[0] == '#' && z[1] == '#';
    if |x| <= 2 {
      assert line[2] == z[2 - |x|];
    } else {
      assert line[..2] == x[..2] && line[2] == x[2];
      if IsVersionHeading(x) {
        assert line[2..] == x[2..] + z;
        var y := TrimStart(x[2..]);
        if y == "" {
          TrimStartBlank(x[2..], z);
        } else {
          TrimStartBefore(x[2..], z);
          if y[0] == '[' {
            assert (y + z)[1..] == y[1..] + z;
            if ']' in y[1..] {
              ClosedInside(y[1..], z);
            } else {
              ClosedBehind(y[1..], a, s);
            }
          }
        }
      }
    }
  }

  lemma ClosedInside(y: string, z: string)
    requires ']' in y
    ensures IndexOf(y + z, ']') == IndexOf(y, ']') < |y| && (y + z)[..IndexOf(y, ']')] == y[..IndexOf(y, ']')]
  {
    var i := IndexOf(y, ']');
    assert y[..|y|] == y;
    assert (y + z)[..i] == y[..i];
    IndexOfAt(y + z, ']', i);
  }

  lemma ClosedBehind(y: string, a: string, s: string)
    requires ']' !in y && ']' !in a && s != "" && s[0] == ']'
    ensures var text := y + ("## [" + (a + s));
            var close := IndexOf(text, ']');
            && 0 < close < |text|
            && text[..close] == y + ("## [" + a)
            && Lower(Trim(text[..close])) != "unreleased"
  {
    var inner := y + ("## [" + a);
    assert y + ("## [" + (a + s)) == inner + s;
    assert ']' !in "## [";
    BracketCloses(inner, s);
    assert inner[|y|] == '#';
    HashIsRelease(inner);
  }

  // ---- When a release is added ----

  /** The cut has added `version` to the releases of a changelog, and done nothing else to them. */
  predicate Adds(content: string, next: string, version: string) {
    multiset(ReleaseHeadings(Split(next, '\n'))) == multiset(ReleaseHeadings(Split(content, '\n'))) + multiset{version}
  }

  /** The unreleased heading is there, and begins its line wherever notes are pending. */
  predicate CanAdd(content: string) {
    var k := Occurs(content, MARK);
    k.Some? && (HasUnreleasedContent(content) ==> k.value == 0 || content[k.value - 1] == '\n')
  }

  lemma {:induction false} LastLineEmpty(base: string)
    ensures LastLine(base) == "" <==> base == "" || base[|base| - 1] == '\n'
    decreases |base|
  {
    hide Split;
    var i := IndexOf(base, '\n');
    if i == |base| {
      assert base[..i] == base;
      SplitNone(base, '\n');
    } else {
      var first, rest := base[..i], base[i + 1..];
      assert base == first + "\n" + rest;
      SplitStep(first, '\n', rest);
      LastLineEmpty(rest);
      assert LastLine(base) == LastLine(rest);
    }
  }

  lemma {:induction false} NoMarkNothingPending(s: string)
    requires Occurs(s, MARK).None?
    ensures !HasUnreleasedContent(s)
  {
    hide TrimStart, BreaksLine, StartsReleased;
    if s != "" {
      NoMarkNothingPending(s[1..]);
    } else {
      assert |MARK| > 0;
    }
  }

  /** What stands in a heading's place, for a line that holds one: its releases, whatever is behind. */
  lemma MarkReleases(x: string, more: string)
    ensures ReleaseOf(x + MARK + more) == if x == "" then [] else MidReleases(x, "Unreleased")
  {
    hide ReleaseOf, MidReleases;
    if x == "" {
      assert x + MARK + more == MARK + more;
      MarkIsNoRelease(more);
    } else {
      assert x + MARK + more == x + ("## [" + ("Unreleased" + ("]" + more)));
      MidLine(x, "Unreleased", "]" + more);
    }
  }

  lemma HeadingReleases(x: string, version: string, date: string, more: string)
    requires IsVersion(version)
    ensures ReleaseOf(x + VersionHeading(version, date) + more) == if x == "" then [version] else MidReleases(x, version)
  {
    hide ReleaseOf, MidReleases;
    if x == "" {
      assert x + VersionHeading(version, date) + more == VersionHeading(version, date) + more;
      HeadingIsRelease(version, date, more);
    } else {
      var tail := "] - " + date + more;
      assert x + VersionHeading(version, date) + more == x + ("## [" + (version + tail));
      MidLine(x, version, tail);
    }
  }

  /** The releases of a text that holds the mark. */
  lemma MarkedReleases(base: string, rest: string)
    ensures ReleaseHeadings(Split(base + (MARK + rest), '\n'))
         == ReleaseHeadings(FrontLines(base))
            + ((if LastLine(base) == "" then [] else MidReleases(LastLine(base), "Unreleased"))
               + ReleaseHeadings(Split(rest, '\n')[1..]))
  {
    hide ReleaseHeadings, Split, ReleaseOf, FrontLines, LastLine, MidReleases;
    MarkIsUnreleased();
    ReleasesGlued(base, MARK, rest);
    MarkReleases(LastLine(base), Split(rest, '\n')[0]);
  }

  /** Renaming the mark adds the version exactly where the mark began its line. */
  lemma RenamingAdds(base: string, rest: string, version: string, date: string)
    requires IsVersion(version) && '\n' !in date
    ensures Adds(base + (MARK + rest), base + (VersionHeading(version, date) + rest), version) <==> LastLine(base) == ""
  {
    hide ReleaseHeadings, Split, ReleaseOf, FrontLines, LastLine, VersionHeading, IsVersion, IsVersionHeading, TrimStart;
    var heading, x := VersionHeading(version, date), LastLine(base);
    HeadingIsOneLine(version, date);
    MarkedReleases(base, rest);
    ReleasesGlued(base, heading, rest);
    HeadingReleases(x, version, date, Split(rest, '\n')[0]);
    var front, back := ReleaseHeadings(FrontLines(base)), ReleaseHeadings(Split(rest, '\n')[1..]);
    if x == "" {
      assert multiset(front + ([version] + back)) == multiset(front + ([] + back)) + multiset{version};
    } else {
      var was, now := MidReleases(x, "Unreleased"), MidReleases(x, version);
      assert |was| == |now|;
      SameSizeAddsNothing(front + (was + back), front + (now + back), version);
    }
  }

  lemma SameSizeAddsNothing<T>(was: seq<T>, now: seq<T>, x: T)
    requires |was| == |now|
    ensures multiset(now) != multiset(was) + multiset{x}
  {
    assert |multiset(now)| == |now| && |multiset(was)| == |was|;
  }

  /** Inserting below the mark always adds it. */
  lemma InsertingAdds(base: string, rest: string, version: string, date: string)
    requires IsVersion(version) && '\n' !in date
    ensures Adds(base + (MARK + rest), base + (MARK + "\n\n" + VersionHeading(version, date) + rest), version)
  {
    hide ReleaseHeadings, Split, ReleaseOf, FrontLines, LastLine, VersionHeading, IsVersion, MidReleases;
    var heading := VersionHeading(version, date);
    HeadingIsOneLine(version, date);
    MarkedReleases(base, rest);
    var below := heading + rest;
    assert MARK + "\n\n" + heading + rest == MARK + ("\n\n" + below);
    assert "\n\n" + below == "" + "\n" + ("" + "\n" + below);
    SplitStep("", '\n', "" + "\n" + below);
    SplitStep("", '\n', below);
    SplitPrefixed(heading, rest, '\n');
    MarkedReleases(base, "\n\n" + below);
    var line, more := heading + Split(rest, '\n')[0], Split(rest, '\n')[1..];
    assert Split("\n\n" + below, '\n')[1..] == [""] + ([line] + more);
    ReleasesConcat([""], [line] + more);
    ReleasesConcat([line], more);
    ReleasesOne("");
    ReleasesOne(line);
    EmptyIsNoRelease();
    HeadingIsRelease(version, date, Split(rest, '\n')[0]);
    var front, back := ReleaseHeadings(FrontLines(base)), ReleaseHeadings(more);
    var mid := if LastLine(base) == "" then [] else MidReleases(LastLine(base), "Unreleased");
    assert multiset(front + (mid + ([version] + back))) == multiset(front + (mid + back)) + multiset{version};
  }

  lemma ReplacedAt(content: string, needle: string, text: string)
    requires Occurs(content, needle).Some?
    ensures var k := Occurs(content, needle).value;
            && content == content[..k] + (needle + content[k + |needle|..])
            && ReplaceFirst(content, needle, text) == content[..k] + (text + content[k + |needle|..])
  {
    hide Occurs;
  }

  /** Putting the heading back makes no difference to what was added. */
  lemma RestoringAdds(content: string, cut: string, version: string)
    ensures Adds(content, RestoreUnreleased(cut), version) <==> Adds(content, cut, version)
  {
    hide ReleaseHeadings, Split, DropNewlines;
    if HEADER <= cut {
      RestoreKeepsReleases(cut);
    }
  }

  lemma UnchangedAddsNothing(content: string, version: string)
    ensures !Adds(content, content, version)
  {
    hide ReleaseHeadings, Split;
    var releases := ReleaseHeadings(Split(content, '\n'));
    SameSizeAddsNothing(releases, releases, version);
  }

  /**
   * On every changelog the cut accepts, well-formed or not: it adds exactly the version to the
   * releases if and only if the changelog holds the unreleased heading, at the start of a line
   * where notes are pending.
   */
  lemma CutAddsExactly(content: string, version: string, date: string)
    requires IsVersion(version) && '\n' !in date && ReleasedContent(content, version, date).Ok?
    ensures Adds(content, ReleasedContent(content, version, date).value, version) <==> CanAdd(content)
  {
    hide Adds, Occurs, RestoreUnreleased, HasUnreleasedContent, VersionHeading, IsVersion, LastLine;
    var k := Occurs(content, MARK);
    var heading := VersionHeading(version, date);
    if k.None? {
      NoMarkNothingPending(content);
      UnchangedAddsNothing(content, version);
    } else {
      hide ReplaceFirst;
      var base, rest := content[..k.value], content[k.value + |MARK|..];
      LastLineEmpty(base);
      if HasUnreleasedContent(content) {
        ReplacedAt(content, MARK, heading);
        RenamingAdds(base, rest, version, date);
        RestoringAdds(content, base + (heading + rest), version);
      } else {
        ReplacedAt(content, MARK, MARK + "\n\n" + heading);
        InsertingAdds(base, rest, version, date);
      }
    }
  }

  /** The cut refuses exactly when notes are pending, the header is not there, and no second heading is left over. */
  lemma CutRefusesExactly(content: string, version: string, date: string)
    ensures ReleasedContent(content, version, date).Err? <==>
              && HasUnreleasedContent(content)
              && !(HEADER <= ReplaceFirst(content, MARK, VersionHeading(version, date)))
              && Occurs(ReplaceFirst(content, MARK, VersionHeading(version, date)), MARK).None?
  {
    hide Occurs, DropNewlines, HasUnreleasedContent, VersionHeading, ReplaceFirst;
    var cut := ReplaceFirst(content, MARK, VersionHeading(version, date));
    if HEADER <= cut {
      FreshHeaderHasMark(DropNewlines(cut[|HEADER|..]));
    }
  }

  const WIDE_MARK := "##  [Unreleased]"

  lemma WideMarkIsHeading()
    ensures IsUnreleasedHeading(WIDE_MARK) && '\n' !in WIDE_MARK
  {
    hide IsSpace, Trim;
    PlainCharacters();
    assert WIDE_MARK[..2] == "##" && WIDE_MARK[2] == ' ' && WIDE_MARK[2..] == "  " + "[Unreleased]" + "";
    TrimIs("  ", "[Unreleased]", "");
  }

  lemma {:induction false} TooShort(s: string, needle: string)
    requires |s| < |needle|
    ensures Occurs(s, needle).None?
  {
    if s != "" {
      TooShort(s[1..], needle);
    }
  }

  lemma WideMarkHoldsNoMark()
    ensures Occurs(WIDE_MARK, MARK).None?
  {
    var s, mark := WIDE_MARK, MARK;
    assert s[3] == ' ' && mark[3] == '[';
    assert s[2] == ' ' && mark[1] == '#';
    assert |s| == |mark| + 1;
    OffByOne(s, mark);
  }

  lemma OffByOne(s: string, needle: string)
    requires |s| == |needle| + 1 && |needle| > 3 && s[3] != needle[3] && s[2] != needle[1]
    ensures Occurs(s, needle).None?
  {
    assert s[1..][1] == s[2];
    TooShort(s[1..][1..], needle);
  }

  /** Two spaces are enough for the fold to find the heading and for the cut to miss it. */
  lemma WideMarkIsMissed(version: string, date: string)
    ensures Locate(Split(WIDE_MARK, '\n')).Some? && ReleasedContent(WIDE_MARK, version, date) == Ok(WIDE_MARK)
  {
    hide Split, IsUnreleasedHeading, VersionHeading, Occurs, HasUnreleasedContent;
    WideMarkIsHeading();
    SplitNone(WIDE_MARK, '\n');
    assert FirstUnreleased([WIDE_MARK], 0) == 0;
    WideMarkHoldsNoMark();
    NoMarkNothingPending(WIDE_MARK);
  }
}
