/**
 * The unreleased region of a changelog and the fold into it (scripts/changelog-fragments.ts):
 * nothing outside the region changes, and the region keeps every note.
 */
module ChangelogRegion {
  import opened Lists
  import opened Text
  import opened ChangelogText
  import opened ChangelogSections
  import opened ChangelogPrint
  import opened ChangelogMerge
  import opened ChangelogNotes
  import opened ChangelogFold

  // ---- Finding the region ----

  /** From the unreleased heading up to the next release heading, or the end. */
  datatype Region = Region(heading: nat, end: nat)

  predicate IsRegion(lines: seq<string>, region: Region) {
    && region.heading < region.end <= |lines|
    && IsUnreleasedHeading(lines[region.heading])
    && (forall i :: 0 <= i < region.heading ==> !IsUnreleasedHeading(lines[i]))
    && (forall i :: region.heading < i < region.end ==> !IsVersionHeading(lines[i]))
    && (region.end < |lines| ==> IsVersionHeading(lines[region.end]))
  }

  function FirstUnreleased(lines: seq<string>, from: nat): (i: nat)
    requires from <= |lines|
    ensures from <= i <= |lines|
    ensures i < |lines| ==> IsUnreleasedHeading(lines[i])
    ensures forall j :: from <= j < i ==> !IsUnreleasedHeading(lines[j])
    decreases |lines| - from
  {
    if from == |lines| || IsUnreleasedHeading(lines[from]) then from else FirstUnreleased(lines, from + 1)
  }

  function NextRelease(lines: seq<string>, from: nat): (i: nat)
    requires from <= |lines|
    ensures from <= i <= |lines|
    ensures i < |lines| ==> IsVersionHeading(lines[i])
    ensures forall j :: from <= j < i ==> !IsVersionHeading(lines[j])
    decreases |lines| - from
  {
    if from == |lines| || IsVersionHeading(lines[from]) then from else NextRelease(lines, from + 1)
  }

  function Locate(lines: seq<string>): (region: Option<Region>)
    ensures region.Some? ==> IsRegion(lines, region.value)
  {
    var heading := FirstUnreleased(lines, 0);
    if heading == |lines| then None else Some(Region(heading, NextRelease(lines, heading + 1)))
  }

  /** There is only one region, and it is the one found. */
  lemma LocateFinds(lines: seq<string>, region: Region)
    requires IsRegion(lines, region)
    ensures Locate(lines) == Some(region)
  {
    hide IsUnreleasedHeading, IsVersionHeading, FirstUnreleased, NextRelease;
    var heading := FirstUnreleased(lines, 0);
    assert heading == region.heading;
    var end := NextRelease(lines, heading + 1);
    assert end == region.end;
  }

  lemma LocateFails(lines: seq<string>)
    requires forall i :: 0 <= i < |lines| ==> !IsUnreleasedHeading(lines[i])
    ensures Locate(lines) == None
  {
    hide IsUnreleasedHeading, FirstUnreleased, NextRelease;
    assert FirstUnreleased(lines, 0) == |lines|;
  }

  /** locateUnreleased: an index loop with a second one inside. */
  method LocateUnreleased(lines: seq<string>) returns (region: Option<Region>)
    ensures region == Locate(lines)
  {
    hide IsUnreleasedHeading, IsVersionHeading, Locate;
    var heading := 0;
    while heading < |lines|
      invariant heading <= |lines| && forall i :: 0 <= i < heading ==> !IsUnreleasedHeading(lines[i])
    {
      if IsUnreleasedHeading(lines[heading]) {
        var end, next := |lines|, heading + 1;
        while next < |lines|
          invariant heading < next <= |lines| == end
          invariant forall i :: heading < i < next ==> !IsVersionHeading(lines[i])
        {
          if IsVersionHeading(lines[next]) {
            end := next;
            break;
          }
          next := next + 1;
        }
        LocateFinds(lines, Region(heading, end));
        return Some(Region(heading, end));
      }
      heading := heading + 1;
    }
    LocateFails(lines);
    region := None;
  }

  // ---- Folding ----

  datatype FoldError = NoUnreleasedSection

  /** A slice of lines joined and split again: an empty slice comes back as one empty line. */
  function BodyLines(slice: seq<string>): seq<string> {
    if slice == [] then [""] else slice
  }

  function MergedBody(fold: string -> string, lines: seq<string>, region: Region, fragments: seq<seq<Section>>): Body
    requires IsRegion(lines, region)
  {
    MergeBody(fold, SplitSections(BodyLines(lines[region.heading + 1..region.end])), Flatten(fragments))
  }

  function FoldLines(fold: string -> string, lines: seq<string>, region: Region, fragments: seq<seq<Section>>): seq<string>
    requires IsRegion(lines, region)
  {
    lines[..region.heading + 1] + RenderBodyLines(MergedBody(fold, lines, region, fragments)) + lines[region.end..]
  }

  function FoldFragments(fold: string -> string, content: string, fragments: seq<seq<Section>>): Result<string, FoldError> {
    if fragments == [] then Ok(content)
    else
      var lines := Split(content, '\n');
      match Locate(lines)
      case None => Err(NoUnreleasedSection)
      case Some(region) => Ok(Join(FoldLines(fold, lines, region, fragments), '\n'))
  }

  predicate GoodFragments(fragments: seq<seq<Section>>) {
    forall i :: 0 <= i < |fragments| ==> GoodSections(fragments[i])
  }

  lemma {:induction false} FlattenIsGood(fragments: seq<seq<Section>>)
    requires GoodFragments(fragments)
    ensures GoodSections(Flatten(fragments))
  {
    hide GoodSection;
    if fragments != [] {
      FlattenIsGood(fragments[..|fragments| - 1]);
    }
  }

  lemma MergedIsGood(fold: string -> string, content: string, region: Region, fragments: seq<seq<Section>>)
    requires IsRegion(Split(content, '\n'), region) && GoodFragments(fragments)
    ensures GoodBody(MergedBody(fold, Split(content, '\n'), region, fragments))
    ensures GoodBody(SplitSections(BodyLines(Split(content, '\n')[region.heading + 1..region.end])))
  {
    hide Split, SectionHeading, SplitSections, MergeBody, Flatten, GoodSections, IsVersionHeading, IsUnreleasedHeading, GoodLine;
    var lines := Split(content, '\n');
    SplitParts(content, '\n');
    var body := BodyLines(lines[region.heading + 1..region.end]);
    assert GoodLine("") by { EmptyIsGood(); }
    forall i | 0 <= i < |body| && SectionHeading(body[i]).None? ensures !IsVersionHeading(body[i]) {
      if lines[region.heading + 1..region.end] == [] {
        GoodIsHarmless(body[i]);
      } else {
        assert body[i] == lines[region.heading + 1 + i];
      }
    }
    SplitIsGood(body);
    FlattenIsGood(fragments);
    MergeIsGood(fold, SplitSections(body), Flatten(fragments));
  }

  lemma GoodIsHarmless(line: string)
    requires GoodLine(line)
    ensures !IsVersionHeading(line)
  {
  }

  /** foldFragmentsIntoChangelog: join the slice, merge, print, and put the lines back together. */
  method FoldFragmentsIntoChangelog(fold: string -> string, content: string, fragments: seq<seq<Section>>)
    returns (r: Result<string, FoldError>)
    ensures r == FoldFragments(fold, content, fragments)
  {
    hide Split, Join, SplitSections, MergeBody, RenderBodyLines, IsRegion, Locate;
    if fragments == [] {
      return Ok(content);
    }
    var lines := Split(content, '\n');
    var region := LocateUnreleased(lines);
    if region.None? {
      return Err(NoUnreleasedSection);
    }
    assert IsRegion(lines, region.value);
    assert region.value.heading < region.value.end <= |lines| by { RegionBounds(lines, region.value); }
    var slice := lines[region.value.heading + 1..region.value.end];
    var body := if slice == [] then "" else Join(slice, '\n');
    assert Split(body, '\n') == BodyLines(slice) by {
      SplitParts(content, '\n');
      if slice == [] {
        SplitNone(body, '\n');
      } else {
        SplitJoin(slice, '\n');
      }
    }
    var merged := MergeUnreleasedBody(fold, Split(body, '\n'), fragments);
    var printed := RenderBody(merged);
    var above, below := lines[..region.value.heading + 1], lines[region.value.end..];
    SplicedText(above, printed, RenderBodyLines(merged), below);
    r := Ok(Join(above + printed + below, '\n'));
  }

  lemma SplicedText(above: seq<string>, a: seq<string>, b: seq<string>, below: seq<string>)
    requires above != [] && a != [] && b != [] && Join(a, '\n') == Join(b, '\n')
    ensures Join(above + a + below, '\n') == Join(above + b + below, '\n')
  {
    hide Join;
    JoinConcat(above, a, '\n');
    JoinConcat(above, b, '\n');
    if below == [] {
      assert above + a + below == above + a && above + b + below == above + b;
    } else {
      JoinConcat(above + a, below, '\n');
      JoinConcat(above + b, below, '\n');
    }
  }

  lemma RegionBounds(lines: seq<string>, region: Region)
    requires IsRegion(lines, region)
    ensures region.heading < region.end <= |lines|
  {
  }

  // ---- What folding keeps ----

  lemma RegionMoves(lines: seq<string>, region: Region, printed: seq<string>)
    requires IsRegion(lines, region) && AllHarmless(printed)
    ensures IsRegion(lines[..region.heading + 1] + printed + lines[region.end..],
                     Region(region.heading, region.heading + 1 + |printed|))
  {
    hide IsVersionHeading, IsUnreleasedHeading;
    var folded := lines[..region.heading + 1] + printed + lines[region.end..];
    assert forall i :: 0 <= i <= region.heading ==> folded[i] == lines[i];
    assert forall i :: 0 <= i < |printed| ==> folded[region.heading + 1 + i] == printed[i];
    forall i | region.heading < i < region.heading + 1 + |printed| ensures !IsVersionHeading(folded[i]) {
      assert folded[i] == printed[i - region.heading - 1];
      assert Harmless(printed[i - region.heading - 1]);
    }
  }

  /**
   * Folding rewrites the region and nothing else: the lines before it, its heading and all lines
   * after it are there verbatim, and the region found afterwards is the printed merge.
   */
  lemma FoldStaysInRegion(fold: string -> string, content: string, fragments: seq<seq<Section>>, region: Region)
    requires fragments != [] && GoodFragments(fragments) && Locate(Split(content, '\n')) == Some(region)
    ensures var lines := Split(content, '\n');
            var r := FoldFragments(fold, content, fragments);
            r.Ok? && Split(r.value, '\n') == FoldLines(fold, lines, region, fragments)
            && Locate(Split(r.value, '\n'))
               == Some(Region(region.heading,
                              region.heading + 1 + |RenderBodyLines(MergedBody(fold, lines, region, fragments))|))
  {
    hide Split, Join, MergedBody, RenderBodyLines, Locate, IsUnreleasedHeading;
    var lines := Split(content, '\n');
    var merged := MergedBody(fold, lines, region, fragments);
    var printed := RenderBodyLines(merged);
    MergedIsGood(fold, content, region, fragments);
    PrintIsHarmless(merged);
    var folded := FoldLines(fold, lines, region, fragments);
    SplitParts(content, '\n');
    forall i | 0 <= i < |folded| ensures '\n' !in folded[i] {
      if region.heading < i < region.heading + 1 + |printed| {
        assert folded[i] == printed[i - region.heading - 1];
        assert Harmless(printed[i - region.heading - 1]);
      }
    }
    SplitJoin(folded, '\n');
    RegionMoves(lines, region, printed);
    LocateFinds(folded, Region(region.heading, region.heading + 1 + |printed|));
  }

  // ---- What the printed region says ----

  lemma {:induction false} PlainLinesConcat(a: seq<string>, b: seq<string>)
    ensures PlainLines(a + b) == PlainLines(a) + PlainLines(b)
  {
    hide SectionHeading;
    if b == [] {
      assert a + b == a;
    } else {
      assert (a + b)[..|a + b| - 1] == a + b[..|b| - 1];
      PlainLinesConcat(a, b[..|b| - 1]);
    }
  }

  lemma {:induction false} AllPlain(lines: seq<string>)
    requires NoHeadings(lines)
    ensures PlainLines(lines) == lines
  {
    hide SectionHeading;
    if lines != [] {
      AllPlain(lines[..|lines| - 1]);
    }
  }

  lemma PlainNotesConcat(a: seq<string>, b: seq<string>)
    ensures Notes(PlainLines(a + b)) == Notes(PlainLines(a)) + Notes(PlainLines(b))
  {
    PlainLinesConcat(a, b);
    NotesConcat(PlainLines(a), PlainLines(b));
  }

  lemma EmptyLineNotes()
    ensures Notes(PlainLines([""])) == []
  {
    hide Notes, PlainLines;
    EmptyIsBlank();
    AllPlain([""]);
    NotesOne("");
  }

  /** A blank heading is printed as `### `, which reads as a note; every other heading as a heading. */
  function HeadingNotes(heading: string): seq<string> {
    if heading == "" then ["###"] else []
  }

  lemma HeadingLineNotes(heading: string)
    requires heading == "" || Printable(heading)
    ensures Notes(PlainLines([HeadingLine(heading)])) == HeadingNotes(heading)
  {
    hide SectionHeading, Notes, Printable, HeadingLine;
    HeadingRoundTrip(heading);
    var line := HeadingLine(heading);
    assert [line][..0] == [];
    if heading == "" {
      assert PlainLines([line]) == [line];
      NotesOne(line);
      BareHeadingNote();
    } else {
      assert PlainLines([line]) == [];
      NotesOfBlank([]);
    }
  }

  lemma BareHeadingNote()
    ensures Note(HeadingLine("")) == ["###"]
  {
    PlainCharacters();
    var line := HeadingLine("");
    assert line == "### " && !IsSpace(line[0]);
    assert line[..3] == "###" && StripBlanks("###") == "###";
  }

  lemma BlockNotes(section: Section)
    requires WellFormedSection(section)
    ensures Notes(PlainLines(SectionBlock(section))) == HeadingNotes(section.heading) + Notes(section.lines)
  {
    hide SectionHeading, Notes, PlainLines, TrimBlankLines, HeadingLine, Printable;
    var line, entries := [HeadingLine(section.heading)], TrimBlankLines(section.lines);
    HeadingLineNotes(section.heading);
    TrimKeepsNotes(section.lines);
    if entries == [] {
      NotesOfBlank(entries);
      assert SectionBlock(section) == line;
    } else {
      NoHeadingsTrimmed(section.lines);
      AllPlain(entries);
      EmptyLineNotes();
      PlainNotesConcat(line, [""] + entries);
      PlainNotesConcat([""], entries);
    }
  }

  function BlankHeadings(sections: seq<Section>): nat {
    if sections == [] then 0
    else BlankHeadings(sections[..|sections| - 1]) + |HeadingNotes(sections[|sections| - 1].heading)|
  }

  lemma {:induction false} BlocksNotes(sections: seq<Section>)
    requires forall i :: 0 <= i < |sections| ==> WellFormedSection(sections[i])
    ensures |Notes(PlainLines(SectionBlocks(sections)))| == |SectionNotes(sections)| + BlankHeadings(sections)
    ensures BlankHeadings(sections) == 0 ==> Notes(PlainLines(SectionBlocks(sections))) == SectionNotes(sections)
  {
    hide Notes, PlainLines, SectionBlock, WellFormedSection, HeadingNotes;
    if sections == [] {
      AllPlain([]);
      NotesOfBlank([]);
    } else {
      var front, last := sections[..|sections| - 1], sections[|sections| - 1];
      BlocksNotes(front);
      PlainNotesConcat(SectionBlocks(front) + [""], SectionBlock(last));
      PlainNotesConcat(SectionBlocks(front), [""]);
      EmptyLineNotes();
      BlockNotes(last);
    }
  }

  lemma PrintNotes(body: Body)
    requires WellFormedBody(body)
    ensures |Notes(PlainLines(RenderBodyLines(body)))| == |BodyNotes(body)| + BlankHeadings(body.sections)
    ensures BlankHeadings(body.sections) == 0 ==> Notes(PlainLines(RenderBodyLines(body))) == BodyNotes(body)
  {
    hide Notes, PlainLines, SectionBlocks, TrimBlankLines, NoHeadings, RenderBodyLines;
    RenderIs(body);
    var head, blocks := TrimBlankLines(body.preamble), SectionBlocks(body.sections);
    BlocksNotes(body.sections);
    PlainNotesConcat(Lead(body) + blocks, [""]);
    PlainNotesConcat(Lead(body), blocks);
    EmptyLineNotes();
    TrimKeepsNotes(body.preamble);
    NoHeadingsTrimmed(body.preamble);
    AllPlain(head);
    if head == [] {
      assert Lead(body) == head;
    } else {
      PlainNotesConcat([""], head);
    }
  }

  lemma {:induction false} NoBlankMeansNone(sections: seq<Section>)
    ensures BlankHeadings(sections) == 0 <==> forall i :: 0 <= i < |sections| ==> sections[i].heading != ""
  {
    if sections != [] {
      NoBlankMeansNone(sections[..|sections| - 1]);
    }
  }

  /** Fragments bring no blank headings, so the merged body has one exactly if the old body had. */
  lemma MergedBlankHeadings(fold: string -> string, body: Body, added: seq<Section>)
    requires forall i :: 0 <= i < |added| ==> added[i].heading != ""
    ensures NoBlankHeadings(MergeBody(fold, body, added)) <==> NoBlankHeadings(body)
  {
    hide MergeAll, Rank, UniqueFrom, KeysOf, Ascending, SortByRank;
    var all, n := MergeAll(fold, body.sections, added), |body.sections|;
    var rank := (s: Section) => Rank(fold, s.heading);
    var merged := MergeBody(fold, body, added).sections;
    MergeIntroducesOnce(fold, body, added);
    forall i | 0 <= i < n ensures merged[i].heading == body.sections[i].heading {
      assert SectionHeadings(merged)[..n][i] == SectionHeadings(body.sections)[i];
    }
    IntroducedHeadings(fold, body.sections, added);
    SortSorts(all[n..], rank);
    forall i | n <= i < |merged| ensures merged[i].heading != "" {
      assert merged[i] == SortByRank(all[n..], rank)[i - n];
      assert merged[i] in multiset(all[n..]);
    }
  }

  lemma {:induction false} IntroducedHeadings(fold: string -> string, sections: seq<Section>, added: seq<Section>)
    requires forall i :: 0 <= i < |added| ==> added[i].heading != ""
    ensures forall i :: |sections| <= i < |MergeAll(fold, sections, added)| ==> MergeAll(fold, sections, added)[i].heading != ""
  {
    hide Key, Joined;
    if added != [] {
      IntroducedHeadings(fold, sections, added[..|added| - 1]);
    }
  }

  predicate Named(fragments: seq<seq<Section>>) {
    forall i :: 0 <= i < |fragments| ==> forall j :: 0 <= j < |fragments[i]| ==> fragments[i][j].heading != ""
  }

  lemma {:induction false} FlattenNamed(fragments: seq<seq<Section>>)
    requires Named(fragments)
    ensures forall i :: 0 <= i < |Flatten(fragments)| ==> Flatten(fragments)[i].heading != ""
  {
    if fragments != [] {
      FlattenNamed(fragments[..|fragments| - 1]);
    }
  }

  function RegionBody(lines: seq<string>, region: Region): seq<string>
    requires IsRegion(lines, region)
  {
    BodyLines(lines[region.heading + 1..region.end])
  }

  function RegionNotes(lines: seq<string>, region: Region): seq<string>
    requires IsRegion(lines, region)
  {
    Notes(PlainLines(RegionBody(lines, region)))
  }

  /** The notes of the printed merge. */
  lemma MergedNotes(fold: string -> string, content: string, fragments: seq<seq<Section>>, region: Region)
    requires GoodFragments(fragments) && Named(fragments) && Locate(Split(content, '\n')) == Some(region)
    ensures var lines := Split(content, '\n');
            var printed := RenderBodyLines(MergedBody(fold, lines, region, fragments));
            multiset(Notes(PlainLines(printed)))
            == multiset(RegionNotes(lines, region)) + multiset(SectionNotes(Flatten(fragments)))
            <==> NoBlankHeadings(SplitSections(RegionBody(lines, region)))
  {
    hide Split, Notes, PlainLines, RenderBodyLines, MergeBody, SplitSections, SectionNotes, Flatten, Locate, GoodFragments, Named;
    var lines := Split(content, '\n');
    var body := RegionBody(lines, region);
    var added := Flatten(fragments);
    var merged := MergedBody(fold, lines, region, fragments);
    MergedIsGood(fold, content, region, fragments);
    GoodIsNewlineFree(merged);
    PrintNotes(merged);
    NoBlankMeansNone(merged.sections);
    FlattenNamed(fragments);
    MergedBlankHeadings(fold, SplitSections(body), added);
    MergeKeepsNotes(fold, SplitSections(body), added);
    SplitKeepsEverything(body);
    SameSize(BodyNotes(merged), Notes(PlainLines(RenderBodyLines(merged))));
  }

  /** After a fold the region's body is the printed merge. */
  lemma FoldedBody(fold: string -> string, content: string, fragments: seq<seq<Section>>, region: Region)
    requires fragments != [] && GoodFragments(fragments) && Locate(Split(content, '\n')) == Some(region)
    ensures FoldFragments(fold, content, fragments).Ok?
    ensures var after := Split(FoldFragments(fold, content, fragments).value, '\n');
            && Locate(after).Some?
            && RegionBody(after, Locate(after).value)
               == RenderBodyLines(MergedBody(fold, Split(content, '\n'), region, fragments))
  {
    hide Split, RenderBodyLines, MergedBody, Locate, GoodFragments, FoldFragments;
    FoldStaysInRegion(fold, content, fragments, region);
    var lines := Split(content, '\n');
    var printed := RenderBodyLines(MergedBody(fold, lines, region, fragments));
    var after := Split(FoldFragments(fold, content, fragments).value, '\n');
    assert after[region.heading + 1..region.heading + 1 + |printed|] == printed;
    PrintIsSomething(MergedBody(fold, lines, region, fragments));
  }

  lemma PrintIsSomething(body: Body)
    ensures RenderBodyLines(body) != []
  {
    hide TrimBlankLines;
  }

  /**
   * The notes of the region after folding are the old region's and the fragments', no more and no
   * less, exactly when there is nothing to fold or no section of the old region has a blank heading.
   */
  lemma FoldKeepsNotes(fold: string -> string, content: string, fragments: seq<seq<Section>>, region: Region)
    requires GoodFragments(fragments) && Named(fragments) && Locate(Split(content, '\n')) == Some(region)
    ensures FoldFragments(fold, content, fragments).Ok?
    ensures var lines, after := Split(content, '\n'), Split(FoldFragments(fold, content, fragments).value, '\n');
            && Locate(after).Some?
            && (multiset(RegionNotes(after, Locate(after).value))
                == multiset(RegionNotes(lines, region)) + multiset(SectionNotes(Flatten(fragments)))
                <==> fragments == [] || NoBlankHeadings(SplitSections(RegionBody(lines, region))))
  {
    hide Split, Notes, PlainLines, RenderBodyLines, MergedBody, SplitSections, Locate, GoodFragments, Named, Join, RegionBody;
    if fragments != [] {
      MergedNotes(fold, content, fragments, region);
      FoldedBody(fold, content, fragments, region);
    }
  }

  const BLANK_HEADING := "###  "
  const BARE_CHANGELOG := ["## [Unreleased]", BLANK_HEADING]

  lemma BlankHeadingIsOne()
    ensures SectionHeading(BLANK_HEADING) == Some("") && !IsVersionHeading(BLANK_HEADING) && '\n' !in BLANK_HEADING
  {
    PlainCharacters();
    assert BLANK_HEADING[3..] == "  " && BLANK_HEADING[..3] == "###";
    TrimEmpty(BLANK_HEADING[3..]);
    assert !IsTerminator(BLANK_HEADING[4]);
  }

  lemma BareRegion()
    ensures Locate(BARE_CHANGELOG) == Some(Region(0, 2)) && NewlineFree(BARE_CHANGELOG)
    ensures RegionBody(BARE_CHANGELOG, Region(0, 2)) == [BLANK_HEADING]
    ensures !NoBlankHeadings(SplitSections([BLANK_HEADING]))
  {
    hide IsUnreleasedHeading, IsVersionHeading, SectionHeading, Locate;
    BlankHeadingIsOne();
    MarkIsHeading();
    assert IsRegion(BARE_CHANGELOG, Region(0, 2));
    LocateFinds(BARE_CHANGELOG, Region(0, 2));
    AddLinesOne(EMPTY, BLANK_HEADING);
    assert SplitSections([BLANK_HEADING]).sections[0].heading == "";
  }

  lemma MarkIsHeading()
    ensures IsUnreleasedHeading("## [Unreleased]") && '\n' !in "## [Unreleased]"
  {
    hide IsSpace, Trim;
    PlainCharacters();
    var mark := "## [Unreleased]";
    assert mark[..2] == "##" && mark[2] == ' ' && mark[2..] == " " + "[Unreleased]" + "";
    TrimIs(" ", "[Unreleased]", "");
  }

  /** A changelog without a note, whose only section is blank: folding any fragment gives it notes that are not the fragment's. */
  lemma BlankHeadingGainsNote(fold: string -> string, fragments: seq<seq<Section>>)
    requires fragments != [] && GoodFragments(fragments) && Named(fragments)
    ensures var content := Join(BARE_CHANGELOG, '\n');
            && FoldFragments(fold, content, fragments).Ok?
            && var after := Split(FoldFragments(fold, content, fragments).value, '\n');
            && Locate(after).Some?
            && multiset(RegionNotes(after, Locate(after).value)) != multiset(SectionNotes(Flatten(fragments)))
  {
    hide Split, Join, Notes, SplitSections, GoodFragments, Named, FoldFragments, Locate, RegionBody, PlainLines;
    BareRegion();
    SplitJoin(BARE_CHANGELOG, '\n');
    FoldKeepsNotes(fold, Join(BARE_CHANGELOG, '\n'), fragments, Region(0, 2));
    BlankHeadingHasNoNotes();
  }

  lemma BlankHeadingHasNoNotes()
    ensures Notes(PlainLines([BLANK_HEADING])) == []
  {
    hide SectionHeading;
    BlankHeadingIsOne();
    assert [BLANK_HEADING][..0] == [];
    assert PlainLines([BLANK_HEADING]) == [];
  }

  lemma SameSize(a: seq<string>, b: seq<string>)
    ensures multiset(a) == multiset(b) ==> |a| == |b|
  {
    assert |multiset(a)| == |a| && |multiset(b)| == |b|;
  }
}
