/**
 * Reading fragments (scripts/changelog-fragments.ts): which are accepted, what each refusal means,
 * and why nothing an accepted one holds can pass for a release heading once it is folded in.
 */
module ChangelogFold {
  import opened Lists
  import opened Text
  import opened ChangelogText
  import opened ChangelogSections
  import opened ChangelogPrint
  import opened ChangelogMerge

  // ---- Reading a fragment ----

  datatype FragmentError = NotASection(line: nat) | BeforeSections(line: nat) | NoSections | NoBullet(heading: string)

  function DropReturn(line: string): string {
    if line != "" && line[|line| - 1] == '\r' then line[..|line| - 1] else line
  }

  /** Lines ended by LF or CR LF. */
  function FragmentLines(content: string): seq<string> {
    var lines := Split(content, '\n');
    seq(|lines|, i requires 0 <= i < |lines| => if i < |lines| - 1 then DropReturn(lines[i]) else lines[i])
  }

  predicate NamesSection(line: string) {
    SectionHeading(line).Some? && SectionHeading(line).value != ""
  }

  predicate HasBullet(section: Section) {
    exists i :: 0 <= i < |section.lines| && IsBullet(section.lines[i])
  }

  /** Every heading names a section and nothing is written before the first one. */
  predicate Faultless(lines: seq<string>) {
    && (forall i :: 0 <= i < |lines| && IsAnyHeading(lines[i]) ==> NamesSection(lines[i]))
    && AllBlank(SplitSections(lines).preamble)
  }

  predicate ValidFragment(lines: seq<string>) {
    && Faultless(lines)
    && SplitSections(lines).sections != []
    && forall i :: 0 <= i < |SplitSections(lines).sections| ==> HasBullet(SplitSections(lines).sections[i])
  }

  /** What each error says about the lines. */
  predicate Explains(error: FragmentError, lines: seq<string>) {
    match error
    case NotASection(n) =>
      1 <= n <= |lines| && Faultless(lines[..n - 1]) && IsAnyHeading(lines[n - 1]) && !NamesSection(lines[n - 1])
    case BeforeSections(n) =>
      && 1 <= n <= |lines| && Faultless(lines[..n - 1]) && SplitSections(lines[..n - 1]).sections == []
      && !IsAnyHeading(lines[n - 1]) && !IsBlank(lines[n - 1])
    case NoSections => Faultless(lines) && SplitSections(lines).sections == []
    case NoBullet(heading) =>
      Faultless(lines) &&
      exists i :: 0 <= i < |SplitSections(lines).sections| && SplitSections(lines).sections[i].heading == heading
                  && !HasBullet(SplitSections(lines).sections[i])
                  && forall j :: 0 <= j < i ==> HasBullet(SplitSections(lines).sections[j])
  }

  lemma PlainIsNoSection(line: string)
    ensures !IsAnyHeading(line) ==> SectionHeading(line).None?
  {
    hide IsAnyHeading;
    if SectionHeading(line).Some? {
      SectionHeadingShape(line);
    }
  }

  lemma FaultlessStep(lines: seq<string>, line: string)
    requires Faultless(lines)
    requires IsAnyHeading(line) ==> NamesSection(line)
    requires !IsAnyHeading(line) && SplitSections(lines).sections == [] ==> IsBlank(line)
    ensures Faultless(lines + [line])
    ensures SplitSections(lines + [line]) == AddLine(SplitSections(lines), line)
  {
    hide SectionHeading, IsAnyHeading, IsBlank;
    assert (lines + [line])[..|lines|] == lines;
    PlainIsNoSection(line);
  }

  method ParseFragment(content: string) returns (r: Result<seq<Section>, FragmentError>)
    ensures r.Ok? ==> ValidFragment(FragmentLines(content)) && r.value == SplitSections(FragmentLines(content)).sections
    ensures r.Err? ==> Explains(r.error, FragmentLines(content))
  {
    hide SectionHeading, IsAnyHeading, IsBlank, HasBullet, SplitSections;
    var lines := FragmentLines(content);
    var sections: seq<Section> := [];
    assert Faultless(lines[..0]) && SplitSections(lines[..0]).sections == [] by { NothingIsFaultless(lines[..0]); }
    for i := 0 to |lines|
      invariant Faultless(lines[..i]) && sections == SplitSections(lines[..i]).sections
    {
      var line := lines[i];
      assert lines[..i + 1] == lines[..i] + [line];
      if IsAnyHeading(line) {
        var heading := SectionHeading(line);
        if heading.None? || heading.value == "" {
          return Err(NotASection(i + 1));
        }
        FaultlessStep(lines[..i], line);
        sections := sections + [Section(heading.value, [])];
      } else if sections != [] {
        FaultlessStep(lines[..i], line);
        PlainIsNoSection(line);
        var n := |sections| - 1;
        sections := sections[n := Section(sections[n].heading, sections[n].lines + [line])];
      } else if !IsBlank(line) {
        return Err(BeforeSections(i + 1));
      } else {
        FaultlessStep(lines[..i], line);
        PlainIsNoSection(line);
      }
    }
    assert lines[..|lines|] == lines;
    if sections == [] {
      return Err(NoSections);
    }
    for i := 0 to |sections|
      invariant forall j :: 0 <= j < i ==> HasBullet(sections[j])
    {
      if !HasBullet(sections[i]) {
        return Err(NoBullet(sections[i].heading));
      }
    }
    r := Ok(sections);
  }

  lemma NothingIsFaultless(lines: seq<string>)
    requires lines == []
    ensures Faultless(lines) && SplitSections(lines).sections == []
  {
  }

  /** No fragment is both read and refused: an error means the lines are not a valid fragment. */
  lemma ErrorMeansInvalid(error: FragmentError, lines: seq<string>)
    requires Explains(error, lines)
    ensures !ValidFragment(lines)
  {
    hide SectionHeading, IsAnyHeading, IsBlank, HasBullet;
    match error
    case NotASection(n) =>
    case BeforeSections(n) =>
      var before, line := lines[..n - 1], lines[n - 1];
      PlainIsNoSection(line);
      assert SplitSections(lines[..n]).preamble == SplitSections(before).preamble + [line] by {
        assert lines[..n][..n - 1] == before;
      }
      PreambleGrows(lines, n);
      var preamble := SplitSections(lines).preamble;
      assert preamble[|SplitSections(before).preamble|] == line;
    case NoSections =>
    case NoBullet(heading) =>
  }

  lemma {:induction false} PreambleGrows(lines: seq<string>, n: nat)
    requires n <= |lines|
    ensures SplitSections(lines[..n]).preamble <= SplitSections(lines).preamble
    decreases |lines| - n
  {
    hide SectionHeading;
    if n == |lines| {
      assert lines[..n] == lines;
    } else {
      PreambleGrows(lines, n + 1);
      assert lines[..n + 1][..n] == lines[..n];
    }
  }

  // ---- Lines that can be printed into a changelog ----

  predicate GoodLine(line: string) {
    SectionHeading(line).None? && !IsVersionHeading(line) && '\n' !in line
  }

  predicate GoodSection(section: Section) {
    && (section.heading == "" || Printable(section.heading))
    && forall i :: 0 <= i < |section.lines| ==> GoodLine(section.lines[i])
  }

  predicate GoodSections(sections: seq<Section>) {
    forall i :: 0 <= i < |sections| ==> GoodSection(sections[i])
  }

  predicate GoodBody(body: Body) {
    (forall i :: 0 <= i < |body.preamble| ==> GoodLine(body.preamble[i])) && GoodSections(body.sections)
  }

  lemma {:induction false} LinesComeFrom(lines: seq<string>)
    ensures forall line :: line in SplitSections(lines).preamble ==> line in lines
    ensures forall i, line :: 0 <= i < |SplitSections(lines).sections| && line in SplitSections(lines).sections[i].lines ==> line in lines
  {
    hide SectionHeading;
    if lines == [] {
      assert SplitSections(lines) == EMPTY;
    } else {
      var front, last := lines[..|lines| - 1], lines[|lines| - 1];
      LinesComeFrom(front);
      assert lines == front + [last];
      var before, after := SplitSections(front), SplitSections(lines);
      forall i, line | 0 <= i < |after.sections| && line in after.sections[i].lines ensures line in lines {
        if i < |before.sections| && line != last {
          assert line in before.sections[i].lines;
        }
      }
    }
  }

  lemma SplitIsGood(lines: seq<string>)
    requires forall i :: 0 <= i < |lines| && SectionHeading(lines[i]).None? ==> !IsVersionHeading(lines[i])
    requires NewlineFree(lines)
    ensures GoodBody(SplitSections(lines))
  {
    hide SectionHeading, SplitSections, IsVersionHeading, Printable;
    LinesComeFrom(lines);
    SplitIsWellFormed(lines);
    var body := SplitSections(lines);
    forall i | 0 <= i < |body.preamble| ensures GoodLine(body.preamble[i]) {
      assert body.preamble[i] in lines;
    }
    forall i | 0 <= i < |body.sections| ensures GoodSection(body.sections[i]) {
      var section := body.sections[i];
      assert WellFormedSection(section);
      forall j | 0 <= j < |section.lines| ensures GoodLine(section.lines[j]) {
        assert section.lines[j] in lines;
      }
    }
  }

  lemma {:induction false} FragmentLinesNewlineFree(content: string)
    ensures NewlineFree(FragmentLines(content))
  {
    hide Split;
    SplitParts(content, '\n');
  }

  /** Every section of a parsed fragment has a name. */
  lemma ParsedIsNamed(lines: seq<string>)
    requires Faultless(lines)
    ensures NoBlankHeadings(SplitSections(lines))
  {
    hide SectionHeading, SplitSections, IsAnyHeading;
    HeadingsComeFromLines(lines);
    var sections := SplitSections(lines).sections;
    forall i | 0 <= i < |sections| ensures sections[i].heading != "" {
      var line :| line in lines && SectionHeading(line) == Some(sections[i].heading);
      SectionHeadingShape(line);
    }
  }

  /** A parsed fragment can be folded: none of its lines opens a section or a release. */
  lemma ParsedIsGood(content: string)
    requires Faultless(FragmentLines(content))
    ensures GoodSections(SplitSections(FragmentLines(content)).sections)
  {
    hide SectionHeading, SplitSections, IsVersionHeading, FragmentLines, IsAnyHeading;
    var lines := FragmentLines(content);
    FragmentLinesNewlineFree(content);
    forall i | 0 <= i < |lines| && SectionHeading(lines[i]).None? ensures !IsVersionHeading(lines[i]) {
      VersionIsHeading(lines[i]);
      assert !NamesSection(lines[i]);
    }
    SplitIsGood(lines);
  }

  lemma VersionIsHeading(line: string)
    ensures IsVersionHeading(line) ==> IsAnyHeading(line)
  {
    if IsVersionHeading(line) {
      assert line[..2][0] == line[0] && line[..2][1] == line[1];
    }
  }

  lemma TrimmedIsGood(lines: seq<string>)
    requires forall i :: 0 <= i < |lines| ==> GoodLine(lines[i])
    ensures forall i :: 0 <= i < |TrimBlankLines(lines)| ==> GoodLine(TrimBlankLines(lines)[i])
  {
    hide TrimBlankLines, SectionHeading, IsVersionHeading;
    var pre, mid, post := ChangelogSections.TrimParts(lines);
    forall i | 0 <= i < |mid| ensures GoodLine(StripBlanks(mid[i])) {
      assert mid[i] == lines[|pre| + i];
      StripMakesNoHeading(mid[i]);
      assert StripBlanks(mid[i]) <= mid[i];
    }
  }

  lemma EmptyIsGood()
    ensures GoodLine("")
  {
  }

  lemma MergeOneIsGood(fold: string -> string, sections: seq<Section>, section: Section)
    requires GoodSections(sections) && GoodSection(section)
    ensures GoodSections(MergeOne(fold, sections, section))
  {
    hide GoodLine, Key, TrimBlankLines, Printable;
    EmptyIsGood();
    TrimmedIsGood(section.lines);
    var i := Find(fold, SectionHeadings(sections), Key(fold, section.heading));
    if i >= 0 {
      TrimmedIsGood(sections[i].lines);
    }
  }

  lemma {:induction false} MergeAllIsGood(fold: string -> string, sections: seq<Section>, added: seq<Section>)
    requires GoodSections(sections) && GoodSections(added)
    ensures GoodSections(MergeAll(fold, sections, added))
  {
    hide GoodSection, MergeOne;
    if added != [] {
      MergeAllIsGood(fold, sections, added[..|added| - 1]);
      MergeOneIsGood(fold, MergeAll(fold, sections, added[..|added| - 1]), added[|added| - 1]);
    }
  }

  lemma MergeIsGood(fold: string -> string, body: Body, added: seq<Section>)
    requires GoodBody(body) && GoodSections(added)
    ensures GoodBody(MergeBody(fold, body, added))
  {
    hide GoodSection, GoodLine, MergeAll, Rank;
    MergeAllIsGood(fold, body.sections, added);
    var n := |body.sections|;
    var tail := MergeAll(fold, body.sections, added)[n..];
    var rank := (s: Section) => Rank(fold, s.heading);
    SortSorts(tail, rank);
    var sorted := SortByRank(tail, rank);
    forall i | 0 <= i < |sorted| ensures GoodSection(sorted[i]) {
      assert sorted[i] in multiset(tail);
    }
  }

  /** A printed line neither opens a release nor breaks into two. */
  predicate Harmless(line: string) {
    !IsVersionHeading(line) && '\n' !in line
  }

  predicate AllHarmless(lines: seq<string>) {
    forall i :: 0 <= i < |lines| ==> Harmless(lines[i])
  }

  lemma HeadingLineIsHarmless(heading: string)
    requires heading == "" || Printable(heading)
    ensures Harmless(HeadingLine(heading))
  {
    hide IsVersionHeading;
    HeadingRoundTrip(heading);
    assert '\n' !in heading;
  }

  lemma {:induction false} BlocksAreHarmless(sections: seq<Section>)
    requires GoodSections(sections)
    ensures AllHarmless(SectionBlocks(sections))
  {
    hide TrimBlankLines, IsVersionHeading, SectionHeading, Printable, HeadingLine;
    EmptyIsGood();
    if sections != [] {
      var front, last := sections[..|sections| - 1], sections[|sections| - 1];
      BlocksAreHarmless(front);
      assert GoodSection(last);
      TrimmedIsGood(last.lines);
      HeadingLineIsHarmless(last.heading);
    }
  }

  lemma PrintIsHarmless(body: Body)
    requires GoodBody(body)
    ensures AllHarmless(RenderBodyLines(body))
  {
    hide TrimBlankLines, IsVersionHeading, SectionHeading, SectionBlocks, RenderBodyLines, GoodSections;
    RenderIs(body);
    EmptyIsGood();
    BlocksAreHarmless(body.sections);
    TrimmedIsGood(body.preamble);
  }

  lemma GoodIsNewlineFree(body: Body)
    requires GoodBody(body)
    ensures NewlineFreeBody(body) && WellFormedBody(body)
  {
    hide SectionHeading, IsVersionHeading;
    forall i | 0 <= i < |body.sections| ensures '\n' !in body.sections[i].heading {
      assert GoodSection(body.sections[i]);
    }
  }
}
