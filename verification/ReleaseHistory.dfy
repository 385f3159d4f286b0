/**
 * Released history: the guard of scripts/changelog-history-guard.ts, the release cut of
 * scripts/release.ts, and why neither the fold nor the cut can lose a released section.
 */
module ReleaseHistory {
  import opened Lists
  import opened Text
  import opened ChangelogText
  import opened ChangelogSections
  import opened ChangelogFold
  import opened ChangelogRegion

  // ---- Release headings ----

  // Lower-casing letters A to Z is enough for a comparison with "unreleased".

  /** The text between the brackets of a `## [..]` line. */
  function ReleaseVersion(line: string): Option<string> {
    if !IsVersionHeading(line) then None
    else
      var text := TrimStart(line[2..]);
      if text == "" || text[0] != '[' then None
      else
        var close := IndexOf(text[1..], ']');
        if 0 < close < |text| - 1 then Some(text[1..][..close]) else None
  }

  function ReleaseOf(line: string): seq<string> {
    match ReleaseVersion(line)
    case None => []
    case Some(version) => if Lower(Trim(version)) == "unreleased" then [] else [Trim(version)]
  }

  /** The released versions of a changelog, in file order. */
  function ReleaseHeadings(lines: seq<string>): seq<string> {
    if lines == [] then [] else ReleaseHeadings(lines[..|lines| - 1]) + ReleaseOf(lines[|lines| - 1])
  }

  method CollectReleaseHeadings(text: string) returns (headings: seq<string>)
    ensures headings == ReleaseHeadings(Split(text, '\n'))
  {
    hide ReleaseVersion, Split;
    headings := [];
    var lines := Split(text, '\n');
    for i := 0 to |lines|
      invariant headings == ReleaseHeadings(lines[..i])
    {
      assert lines[..i + 1][..i] == lines[..i];
      var version := ReleaseVersion(lines[i]);
      if version.Some? && Lower(Trim(version.value)) != "unreleased" {
        headings := headings + [Trim(version.value)];
      }
    }
    assert lines[..|lines|] == lines;
  }

  lemma {:induction false} ReleasesConcat(a: seq<string>, b: seq<string>)
    ensures ReleaseHeadings(a + b) == ReleaseHeadings(a) + ReleaseHeadings(b)
  {
    hide ReleaseOf;
    if b == [] {
      assert a + b == a;
    } else {
      assert (a + b)[..|a + b| - 1] == a + b[..|b| - 1];
      ReleasesConcat(a, b[..|b| - 1]);
    }
  }

  lemma ReleasesOne(line: string)
    ensures ReleaseHeadings([line]) == ReleaseOf(line)
  {
    hide ReleaseOf;
    assert [line][..0] == [];
  }

  lemma {:induction false} NoReleases(lines: seq<string>)
    requires forall i :: 0 <= i < |lines| ==> !IsVersionHeading(lines[i])
    ensures ReleaseHeadings(lines) == []
  {
    hide IsVersionHeading;
    if lines != [] {
      NoReleases(lines[..|lines| - 1]);
    }
  }

  // ---- The guard ----

  datatype Violation = Violation(removed: seq<string>, baseHeadingCount: nat, headHeadingCount: nat)

  function Missing(before: seq<string>, after: set<string>): seq<string> {
    if before == [] then []
    else Missing(before[..|before| - 1], after) + if before[|before| - 1] in after then [] else [before[|before| - 1]]
  }

  function CompareHistory(base: Option<string>, head: Option<string>): Option<Violation> {
    if base.None? then None
    else
      var before := ReleaseHeadings(Split(base.value, '\n'));
      if head.None? then (if before == [] then None else Some(Violation(before, |before|, 0)))
      else
        var after := ToSet(ReleaseHeadings(Split(head.value, '\n')));
        var removed := Missing(before, after);
        if removed == [] then None else Some(Violation(removed, |before|, |after|))
  }

  lemma {:induction false} MissingIs(before: seq<string>, after: set<string>)
    ensures forall v :: v in Missing(before, after) <==> v in before && v !in after
  {
    if before != [] {
      MissingIs(before[..|before| - 1], after);
      assert before == before[..|before| - 1] + [before[|before| - 1]];
    }
  }

  /**
   * The guard is silent exactly when every released version of the base is still there, and what
   * it reports otherwise is exactly the versions that are gone. Deleting the file loses them all.
   */
  lemma GuardIsExact(base: string, head: string)
    ensures CompareHistory(Some(base), Some(head)) == None <==>
              ToSet(ReleaseHeadings(Split(base, '\n'))) <= ToSet(ReleaseHeadings(Split(head, '\n')))
    ensures var v := CompareHistory(Some(base), Some(head));
            v.Some? ==> ToSet(v.value.removed) == ToSet(ReleaseHeadings(Split(base, '\n'))) - ToSet(ReleaseHeadings(Split(head, '\n')))
    ensures CompareHistory(Some(base), None) == None <==> ReleaseHeadings(Split(base, '\n')) == []
    ensures var v := CompareHistory(Some(base), None);
            v.Some? ==> v.value.removed == ReleaseHeadings(Split(base, '\n'))
  {
    hide ReleaseHeadings, Split;
    var before, after := ReleaseHeadings(Split(base, '\n')), ToSet(ReleaseHeadings(Split(head, '\n')));
    MissingIs(before, after);
    var removed := Missing(before, after);
    if removed != [] {
      assert removed[0] in removed;
      assert removed[0] in ToSet(before);
    } else {
      forall v | v in ToSet(before) ensures v in after {
        assert v !in removed;
      }
    }
  }

  // ---- Folding keeps history ----

  /** Folding leaves the list of released versions as it was. */
  lemma FoldKeepsReleases(fold: string -> string, content: string, fragments: seq<seq<Section>>)
    requires GoodFragments(fragments) && FoldFragments(fold, content, fragments).Ok?
    ensures ReleaseHeadings(Split(FoldFragments(fold, content, fragments).value, '\n')) == ReleaseHeadings(Split(content, '\n'))
  {
    hide Split, ReleaseHeadings, MergedBody, RenderBodyLines, Locate, Join, IsUnreleasedHeading, IsVersionHeading, Harmless;
    if fragments != [] {
      var lines := Split(content, '\n');
      var region := Locate(lines).value;
      FoldStaysInRegion(fold, content, fragments, region);
      var merged := MergedBody(fold, lines, region, fragments);
      var printed := RenderBodyLines(merged);
      MergedIsGood(fold, content, region, fragments);
      PrintIsHarmless(merged);
      forall i | 0 <= i < |printed| ensures !IsVersionHeading(printed[i]) {
        HarmlessIsNoVersion(printed[i]);
      }
      NoReleases(printed);
      var a, middle, c := lines[..region.heading + 1], lines[region.heading + 1..region.end], lines[region.end..];
      NoReleases(middle);
      assert lines == a + middle + c;
      ReleasesConcat(a + middle, c);
      ReleasesConcat(a, middle);
      ReleasesConcat(a + printed, c);
      ReleasesConcat(a, printed);
    }
  }

  lemma HarmlessIsNoVersion(line: string)
    requires Harmless(line)
    ensures !IsVersionHeading(line)
  {
  }

  // ---- The release cut ----

  const MARK := "## [Unreleased]"
  const TITLE := "# Changelog"
  const HEADER := TITLE + "\n"
  const FRESH_HEADER := TITLE + "\n\n" + MARK + "\n\n"

  /** Where `needle` first occurs. */
  function Occurs(s: string, needle: string): (at: Option<nat>)
    ensures at.Some? ==> at.value <= |s| && needle <= s[at.value..]
  {
    if needle <= s then Some(0)
    else if s == "" then None
    else match Occurs(s[1..], needle) { case None => None case Some(i) => Some(i + 1) }
  }

  /** String replacement: the first occurrence only. */
  function ReplaceFirst(s: string, needle: string, text: string): string {
    match Occurs(s, needle)
    case None => s
    case Some(i) => s[..i] + text + s[i + |needle|..]
  }

  predicate StartsReleased(text: string) {
    |text| > 4 && text[..4] == "## [" && '0' <= text[4] <= '9'
  }

  function LeadingSpace(s: string): string {
    if s != "" && IsSpace(s[0]) then [s[0]] + LeadingSpace(s[1..]) else ""
  }

  /** White space with a line break in it. */
  predicate BreaksLine(rest: string) {
    '\n' in LeadingSpace(rest)
  }

  /** Is there anything but white space between the unreleased heading and the next release? */
  predicate HasUnreleasedContent(s: string) {
    if MARK <= s && BreaksLine(s[|MARK|..]) then
      TrimStart(s[|MARK|..]) != "" && !StartsReleased(TrimStart(s[|MARK|..]))
    else s != "" && HasUnreleasedContent(s[1..])
  }

  function DropNewlines(s: string): string {
    if s != "" && s[0] == '\n' then DropNewlines(s[1..]) else s
  }

  function RestoreUnreleased(s: string): string {
    if HEADER <= s then FRESH_HEADER + DropNewlines(s[|HEADER|..]) else s
  }

  datatype CutError = LostUnreleased

  function VersionHeading(version: string, date: string): string {
    "## [" + version + ("] - " + date)
  }

  method ReleasedChangelogContent(content: string, version: string, date: string) returns (r: Result<string, CutError>)
    ensures r == ReleasedContent(content, version, date)
  {
    hide HasUnreleasedContent, ReplaceFirst, RestoreUnreleased, Occurs;
    var next := content;
    if HasUnreleasedContent(content) {
      next := ReplaceFirst(next, MARK, VersionHeading(version, date));
      next := RestoreUnreleased(next);
      if Occurs(next, MARK).None? {
        return Err(LostUnreleased);
      }
    } else {
      next := ReplaceFirst(next, MARK, MARK + "\n\n" + VersionHeading(version, date));
    }
    r := Ok(next);
  }

  function ReleasedContent(content: string, version: string, date: string): Result<string, CutError> {
    var heading := VersionHeading(version, date);
    if HasUnreleasedContent(content) then
      var next := RestoreUnreleased(ReplaceFirst(content, MARK, heading));
      if Occurs(next, MARK).None? then Err(LostUnreleased) else Ok(next)
    else Ok(ReplaceFirst(content, MARK, MARK + "\n\n" + heading))
  }

  // ---- Cutting a well-formed changelog ----

  /** A version as releases use it: printable between brackets and not the word itself. */
  predicate IsVersion(version: string) {
    version != "" && IsTrimmed(version) && ']' !in version && '\n' !in version && Lower(version) != "unreleased"
  }

  /** `# Changelog` first, then an unreleased heading at the start of a line, and releases only after it. */
  predicate WellFormed(content: string, before: string, rest: string) {
    && content == before + "\n" + MARK + rest
    && HEADER <= before + "\n"
    && (forall i :: 0 <= i <= |before| ==> !(MARK <= before[i..]))
    && ReleaseHeadings(Split(before, '\n')) == []
  }

  lemma {:induction false} OccursAt(s: string, needle: string, k: nat)
    requires k <= |s| && needle <= s[k..] && forall i :: 0 <= i < k ==> !(needle <= s[i..])
    ensures Occurs(s, needle) == Some(k)
  {
    if k > 0 {
      assert !(needle <= s[0..]) && s[0..] == s;
      forall i | 0 <= i < k - 1 ensures !(needle <= s[1..][i..]) {
        assert s[1..][i..] == s[i + 1..];
      }
      assert s[1..][k - 1..] == s[k..];
      OccursAt(s[1..], needle, k - 1);
    }
  }

  /** A line that begins with `needle` is where it first occurs, if nothing above holds it. */
  lemma FirstOccurrence(before: string, needle: string, rest: string)
    requires '\n' !in needle && forall i :: 0 <= i <= |before| ==> !(needle <= before[i..])
    ensures Occurs(before + "\n" + needle + rest, needle) == Some(|before| + 1)
  {
    hide Occurs;
    var s, k := before + "\n" + needle + rest, |before| + 1;
    assert s[k..] == needle + rest;
    forall i | 0 <= i < k ensures !(needle <= s[i..]) {
      assert s[i..] == before[i..] + "\n" + (needle + rest);
      PrefixStops(needle, before[i..], needle + rest);
    }
    OccursAt(s, needle, k);
  }

  lemma PrefixStops(needle: string, x: string, y: string)
    requires '\n' !in needle
    ensures needle <= x + "\n" + y ==> needle <= x
  {
    assert (x + "\n" + y)[|x|] == '\n';
  }

  lemma ReplacedMark(content: string, before: string, rest: string, text: string)
    requires WellFormed(content, before, rest)
    ensures ReplaceFirst(content, MARK, text) == before + "\n" + (text + rest)
  {
    hide Occurs, ReleaseHeadings, Split;
    MarkIsUnreleased();
    FirstOccurrence(before, MARK, rest);
    var k := |before| + 1;
    assert content[..k] == before + "\n";
    assert content[k + |MARK|..] == rest;
  }

  lemma BracketCloses(inner: string, tail: string)
    requires ']' !in inner && tail != "" && tail[0] == ']'
    ensures IndexOf(inner + tail, ']') == |inner| && (inner + tail)[..|inner|] == inner
  {
    assert (inner + tail)[..|inner|] == inner;
    IndexOfAt(inner + tail, ']', |inner|);
  }

  /** The version of a bracketed heading is what stands before the first closing bracket. */
  lemma BracketedVersion(inner: string, tail: string)
    requires inner != "" && ']' !in inner && tail != "" && tail[0] == ']'
    ensures ReleaseVersion("## " + ("[" + (inner + tail))) == Some(inner)
  {
    hide IsSpace, TrimStart, IndexOf;
    PlainCharacters();
    var text := "[" + (inner + tail);
    var line := "## " + text;
    assert line[..2] == "##" && line[2] == ' ' && line[2..] == " " + text;
    assert IsBlank(" ");
    TrimStartIs(" ", text);
    assert text[1..] == inner + tail;
    BracketCloses(inner, tail);
  }

  lemma HeadingText(version: string, date: string, more: string)
    ensures VersionHeading(version, date) + more == "## " + ("[" + (version + ("] - " + date + more)))
  {
    assert "## [" == "## " + "[";
  }

  lemma TrimmedStays(s: string)
    requires IsTrimmed(s)
    ensures Trim(s) == s
  {
    hide Trim, IsTrimmed;
    assert "" + s + "" == s;
    TrimIs("", s, "");
  }

  /** A version heading is one released version, whatever follows on its line. */
  lemma HeadingIsRelease(version: string, date: string, more: string)
    requires IsVersion(version)
    ensures ReleaseOf(VersionHeading(version, date) + more) == [version]
  {
    hide ReleaseVersion, IsTrimmed, Trim, VersionHeading;
    HeadingText(version, date, more);
    BracketedVersion(version, "] - " + date + more);
    TrimmedStays(version);
  }

  /** The unreleased heading is none. */
  lemma MarkIsNoRelease(more: string)
    ensures ReleaseOf(MARK + more) == []
  {
    hide ReleaseVersion, Trim;
    var tail := "]" + more;
    assert MARK + more == "## " + ("[" + ("Unreleased" + tail));
    BracketedVersion("Unreleased", tail);
    UnreleasedWord();
  }

  lemma UnreleasedWord()
    ensures Trim("Unreleased") == "Unreleased" && Lower("Unreleased") == "unreleased"
  {
    TrimmedStays("Unreleased");
  }

  lemma MarkIsUnreleased()
    ensures IsUnreleasedHeading(MARK) && '\n' !in MARK
  {
    hide IsSpace, Trim;
    PlainCharacters();
    assert MARK[..2] == "##" && MARK[2] == ' ' && MARK[2..] == " " + "[Unreleased]" + "";
    TrimIs(" ", "[Unreleased]", "");
  }

  /** Replacing the heading's own text changes the releases by what the new first line says. */
  lemma ReleasesAfter(before: string, first: string, rest: string)
    requires '\n' !in first
    ensures ReleaseHeadings(Split(before + "\n" + (first + rest), '\n'))
         == ReleaseHeadings(Split(before, '\n'))
            + (ReleaseOf(first + Split(rest, '\n')[0]) + ReleaseHeadings(Split(rest, '\n')[1..]))
  {
    hide ReleaseHeadings, Split, ReleaseOf;
    SplitConcat(before, '\n', first + rest);
    SplitPrefixed(first, rest, '\n');
    var line, more := first + Split(rest, '\n')[0], Split(rest, '\n')[1..];
    ReleasesConcat(Split(before, '\n'), [line] + more);
    ReleasesConcat([line], more);
    ReleasesOne(line);
  }

  lemma {:induction false} DroppedNewlines(s: string)
    ensures ReleaseHeadings(Split(DropNewlines(s), '\n')) == ReleaseHeadings(Split(s, '\n'))
  {
    hide ReleaseHeadings, Split, ReleaseOf;
    if s != "" && s[0] == '\n' {
      assert s == "" + "\n" + s[1..];
      DroppedNewlines(s[1..]);
      SplitStep("", '\n', s[1..]);
      ReleasesConcat([""], Split(s[1..], '\n'));
      ReleasesOne("");
      assert ReleaseOf("") == [] by { EmptyIsNoRelease(); }
    }
  }

  lemma EmptyIsNoRelease()
    ensures ReleaseOf("") == []
  {
  }

  lemma HeaderIsNoRelease()
    ensures ReleaseOf(TITLE) == [] && '\n' !in TITLE
  {
    assert TITLE[1] == ' ';
    assert TITLE[..2] != "##";
  }

  /** Putting the unreleased heading back under the header adds no release and breaks none. */
  lemma RestoreKeepsReleases(s: string)
    requires HEADER <= s
    ensures ReleaseHeadings(Split(RestoreUnreleased(s), '\n')) == ReleaseHeadings(Split(s, '\n'))
    ensures MARK in Split(RestoreUnreleased(s), '\n')
  {
    hide ReleaseHeadings, Split, ReleaseOf, DropNewlines;
    var tail := s[|HEADER|..];
    var kept := DropNewlines(tail);
    DroppedNewlines(tail);
    HeaderIsNoRelease();
    assert s == TITLE + "\n" + tail;
    SplitStep(TITLE, '\n', tail);
    ReleasesConcat([TITLE], Split(tail, '\n'));
    ReleasesOne(TITLE);
    FreshHeaderLines(kept);
    var top := [TITLE, "", MARK, ""];
    ReleasesConcat(top, Split(kept, '\n'));
    FreshHeaderReleases();
  }

  lemma SplitFour(a: string, b: string, c: string, d: string, kept: string)
    requires '\n' !in a && '\n' !in b && '\n' !in c && '\n' !in d
    ensures Split(a + "\n" + (b + "\n" + (c + "\n" + (d + "\n" + kept))), '\n') == [a, b, c, d] + Split(kept, '\n')
  {
    hide Split;
    SplitStep(d, '\n', kept);
    SplitStep(c, '\n', d + "\n" + kept);
    SplitStep(b, '\n', c + "\n" + (d + "\n" + kept));
    SplitStep(a, '\n', b + "\n" + (c + "\n" + (d + "\n" + kept)));
  }

  lemma FreshHeaderLines(kept: string)
    ensures Split(FRESH_HEADER + kept, '\n') == [TITLE, "", MARK, ""] + Split(kept, '\n')
  {
    hide Split;
    MarkIsUnreleased();
    HeaderIsNoRelease();
    Regrouped(TITLE, MARK, kept);
    SplitFour(TITLE, "", MARK, "", kept);
  }

  lemma Regrouped(title: string, mark: string, kept: string)
    ensures title + "\n\n" + mark + "\n\n" + kept == title + "\n" + ("" + "\n" + (mark + "\n" + ("" + "\n" + kept)))
  {
  }

  lemma FreshHeaderReleases()
    ensures ReleaseHeadings([TITLE, "", MARK, ""]) == []
  {
    hide ReleaseHeadings, ReleaseOf;
    assert [TITLE, "", MARK, ""] == [TITLE] + [""] + [MARK] + [""];
    ReleasesConcat([TITLE] + [""] + [MARK], [""]);
    ReleasesConcat([TITLE] + [""], [MARK]);
    ReleasesConcat([TITLE], [""]);
    ReleasesOne(TITLE);
    ReleasesOne("");
    ReleasesOne(MARK);
    HeaderIsNoRelease();
    EmptyIsNoRelease();
    MarkIsNoRelease("");
    assert MARK + "" == MARK;
  }

  lemma {:induction false} OccursSome(s: string, needle: string, k: nat)
    requires k <= |s| && needle <= s[k..]
    ensures Occurs(s, needle).Some?
  {
    if k > 0 && !(needle <= s) {
      assert s[1..][k - 1..] == s[k..];
      OccursSome(s[1..], needle, k - 1);
    }
  }

  lemma FreshHeaderHasMark(kept: string)
    ensures Occurs(FRESH_HEADER + kept, MARK).Some?
  {
    hide Occurs;
    var top := TITLE + "\n\n";
    Sliced(top, MARK, "\n\n", kept);
    OccursSome(FRESH_HEADER + kept, MARK, |top|);
  }

  lemma Sliced(a: string, b: string, c: string, d: string)
    ensures b <= (a + b + c + d)[|a|..]
  {
    assert (a + b + c + d)[|a|..] == b + (c + d);
  }

  lemma MarkIsLocated(lines: seq<string>)
    requires MARK in lines
    ensures Locate(lines).Some?
  {
    hide IsUnreleasedHeading, FirstUnreleased, NextRelease;
    MarkIsUnreleased();
    var i :| 0 <= i < |lines| && lines[i] == MARK;
    assert FirstUnreleased(lines, 0) <= i;
  }

  lemma WellFormedReleases(content: string, before: string, rest: string)
    requires WellFormed(content, before, rest)
    ensures ReleaseHeadings(Split(content, '\n')) == ReleaseHeadings(Split(rest, '\n')[1..])
  {
    hide ReleaseHeadings, Split, ReleaseOf, Occurs;
    assert content == before + "\n" + (MARK + rest);
    MarkIsUnreleased();
    ReleasesAfter(before, MARK, rest);
    MarkIsNoRelease(Split(rest, '\n')[0]);
  }

  /** Notes were pending: the heading is renamed to the version and a new one put under the header. */
  lemma CutRenames(content: string, before: string, rest: string, version: string, date: string)
    requires WellFormed(content, before, rest) && IsVersion(version) && '\n' !in date
    ensures var next := RestoreUnreleased(ReplaceFirst(content, MARK, VersionHeading(version, date)));
            && Occurs(next, MARK).Some? && MARK in Split(next, '\n')
            && ReleaseHeadings(Split(next, '\n')) == [version] + ReleaseHeadings(Split(content, '\n'))
  {
    hide ReleaseHeadings, Split, ReleaseOf, Occurs, ReplaceFirst, DropNewlines, VersionHeading, IsVersion;
    var heading := VersionHeading(version, date);
    HeadingIsOneLine(version, date);
    ReplacedMark(content, before, rest, heading);
    var cut := before + "\n" + (heading + rest);
    WellFormedReleases(content, before, rest);
    ReleasesAfter(before, heading, rest);
    HeadingIsRelease(version, date, Split(rest, '\n')[0]);
    RestoreKeepsReleases(cut);
    FreshHeaderHasMark(DropNewlines(cut[|HEADER|..]));
  }

  lemma InsertedLines(before: string, mark: string, heading: string, rest: string)
    requires '\n' !in mark && '\n' !in heading
    ensures Split(before + "\n" + (mark + "\n\n" + heading + rest), '\n')
         == Split(before, '\n') + [mark] + [""] + ([heading + Split(rest, '\n')[0]] + Split(rest, '\n')[1..])
  {
    hide Split;
    var below := heading + rest;
    assert mark + "\n\n" + heading + rest == mark + "\n" + ("" + "\n" + below);
    SplitConcat(before, '\n', mark + "\n" + ("" + "\n" + below));
    SplitStep(mark, '\n', "" + "\n" + below);
    SplitStep("", '\n', below);
    SplitPrefixed(heading, rest, '\n');
  }

  lemma HeadingIsOneLine(version: string, date: string)
    requires IsVersion(version) && '\n' !in date
    ensures '\n' !in VersionHeading(version, date)
  {
  }

  /** Nothing was pending: the version is inserted below the unreleased heading. */
  lemma CutInserts(content: string, before: string, rest: string, version: string, date: string)
    requires WellFormed(content, before, rest) && IsVersion(version) && '\n' !in date
    ensures var next := ReplaceFirst(content, MARK, MARK + "\n\n" + VersionHeading(version, date));
            && MARK in Split(next, '\n')
            && ReleaseHeadings(Split(next, '\n')) == [version] + ReleaseHeadings(Split(content, '\n'))
  {
    hide ReleaseHeadings, Split, ReleaseOf, Occurs, ReplaceFirst, VersionHeading, IsVersion;
    var heading := VersionHeading(version, date);
    HeadingIsOneLine(version, date);
    ReplacedMark(content, before, rest, MARK + "\n\n" + heading);
    WellFormedReleases(content, before, rest);
    MarkIsUnreleased();
    InsertedLines(before, MARK, heading, rest);
    HeadingIsRelease(version, date, Split(rest, '\n')[0]);
    var top, line, more := Split(before, '\n'), heading + Split(rest, '\n')[0], Split(rest, '\n')[1..];
    ReleasesConcat(top + [MARK] + [""], [line] + more);
    ReleasesConcat(top + [MARK], [""]);
    ReleasesConcat(top, [MARK]);
    ReleasesConcat([line], more);
    ReleasesOne(line);
    ReleasesOne(MARK);
    ReleasesOne("");
    EmptyIsNoRelease();
    MarkIsNoRelease("");
    assert MARK + "" == MARK;
  }

  /**
   * On a well-formed changelog the cut succeeds, adds exactly the new version above all released
   * ones, and leaves an unreleased heading for the next cycle.
   */
  lemma CutAddsOneRelease(content: string, before: string, rest: string, version: string, date: string)
    requires WellFormed(content, before, rest) && IsVersion(version) && '\n' !in date
    ensures var r := ReleasedContent(content, version, date);
            && r.Ok? && Locate(Split(r.value, '\n')).Some?
            && ReleaseHeadings(Split(r.value, '\n')) == [version] + ReleaseHeadings(Split(content, '\n'))
  {
    hide ReleaseHeadings, Split, Occurs, ReplaceFirst, RestoreUnreleased, HasUnreleasedContent, Locate, WellFormed, VersionHeading;
    CutRenames(content, before, rest, version, date);
    CutInserts(content, before, rest, version, date);
    MarkIsLocated(Split(ReleasedContent(content, version, date).value, '\n'));
  }

  // ---- A whole release ----

  /** The unreleased heading stands alone on its line and is the first one of its kind. */
  predicate Foldable(before: string, rest: string) {
    && IsBlank(Split(rest, '\n')[0])
    && forall i :: 0 <= i < |Split(before, '\n')| ==> !IsUnreleasedHeading(Split(before, '\n')[i])
  }

  lemma BlankAfterMark(more: string)
    requires IsBlank(more)
    ensures IsUnreleasedHeading(MARK + more)
  {
    hide IsSpace, Trim;
    PlainCharacters();
    var line := MARK + more;
    assert line[..2] == "##" && line[2] == ' ' && line[2..] == " " + "[Unreleased]" + more;
    TrimIs(" ", "[Unreleased]", more);
  }

  lemma FoldableIsLocated(content: string, before: string, rest: string)
    requires WellFormed(content, before, rest) && Foldable(before, rest)
    ensures Split(content, '\n') == Split(before, '\n') + ([MARK + Split(rest, '\n')[0]] + Split(rest, '\n')[1..])
    ensures Locate(Split(content, '\n')).Some? && Locate(Split(content, '\n')).value.heading == |Split(before, '\n')|
  {
    hide ReleaseHeadings, Split, Occurs, IsUnreleasedHeading, IsVersionHeading, IsBlank, NextRelease;
    assert content == before + "\n" + (MARK + rest);
    MarkIsUnreleased();
    SplitConcat(before, '\n', MARK + rest);
    SplitPrefixed(MARK, rest, '\n');
    BlankAfterMark(Split(rest, '\n')[0]);
    var lines, h := Split(content, '\n'), |Split(before, '\n')|;
    assert lines[h] == MARK + Split(rest, '\n')[0];
    assert forall i :: 0 <= i < h ==> lines[i] == Split(before, '\n')[i];
    assert FirstUnreleased(lines, 0) == h;
  }

  /** Folding a well-formed changelog gives a well-formed one. */
  lemma FoldKeepsWellFormed(
    fold: string -> string, content: string, before: string, rest: string, fragments: seq<seq<Section>>)
    returns (more: string)
    requires WellFormed(content, before, rest) && Foldable(before, rest) && GoodFragments(fragments)
    ensures FoldFragments(fold, content, fragments).Ok?
    ensures WellFormed(FoldFragments(fold, content, fragments).value, before, more)
  {
    hide ReleaseHeadings, Split, IsUnreleasedHeading, IsVersionHeading, IsBlank, Locate, RenderBodyLines, MergedBody, Join,
      Occurs, GoodFragments;
    more := rest;
    FoldableIsLocated(content, before, rest);
    if fragments != [] {
      var lines := Split(content, '\n');
      var region := Locate(lines).value;
      var top, line := Split(before, '\n'), MARK + Split(rest, '\n')[0];
      var below := RenderBodyLines(MergedBody(fold, lines, region, fragments)) + lines[region.end..];
      var folded := FoldLines(fold, lines, region, fragments);
      PrintIsSomething(MergedBody(fold, lines, region, fragments));
      assert lines[..region.heading + 1] == top + [line];
      assert folded == top + ([line] + below);
      JoinConcat(top, [line] + below, '\n');
      JoinSplit(before, '\n');
      JoinStep(line, below, '\n');
      more := Split(rest, '\n')[0] + "\n" + Join(below, '\n');
      assert Join(folded, '\n') == before + "\n" + MARK + more;
    }
  }

  /**
   * A whole release of a well-formed changelog, fragments folded and version cut: it succeeds, the
   * released versions are the old ones with the new one on top, and the history guard is silent
   * after the fold, after the cut and over both.
   */
  lemma ReleaseKeepsHistory(
    fold: string -> string, content: string, before: string, rest: string, fragments: seq<seq<Section>>,
    version: string, date: string)
    requires WellFormed(content, before, rest) && Foldable(before, rest) && GoodFragments(fragments)
    requires IsVersion(version) && '\n' !in date
    ensures var folded := FoldFragments(fold, content, fragments);
            && folded.Ok?
            && var released := ReleasedContent(folded.value, version, date);
            && released.Ok?
            && ReleaseHeadings(Split(released.value, '\n')) == [version] + ReleaseHeadings(Split(content, '\n'))
            && Locate(Split(released.value, '\n')).Some?
            && CompareHistory(Some(content), Some(folded.value)) == None
            && CompareHistory(Some(folded.value), Some(released.value)) == None
            && CompareHistory(Some(content), Some(released.value)) == None
  {
    hide ReleaseHeadings, Split, FoldFragments, ReleasedContent, WellFormed, Foldable, GoodFragments, CompareHistory, Locate;
    var more := FoldKeepsWellFormed(fold, content, before, rest, fragments);
    var folded := FoldFragments(fold, content, fragments).value;
    FoldKeepsReleases(fold, content, fragments);
    CutAddsOneRelease(folded, before, more, version, date);
    var released := ReleasedContent(folded, version, date).value;
    GuardIsExact(content, folded);
    GuardIsExact(folded, released);
    GuardIsExact(content, released);
    ToSetConcat([version], ReleaseHeadings(Split(content, '\n')));
  }
}
