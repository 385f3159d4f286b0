/** Printing a split body and splitting the print again (scripts/changelog-fragments.ts). */
module ChangelogPrint {
  import opened Lists
  import opened Text
  import opened ChangelogText
  import opened ChangelogSections

  // ---- The printer as the source writes it: blocks of text, joined and split ----

  predicate NewlineFree(lines: seq<string>) {
    forall i :: 0 <= i < |lines| ==> '\n' !in lines[i]
  }

  predicate NewlineFreeBody(body: Body) {
    && NewlineFree(body.preamble)
    && forall i :: 0 <= i < |body.sections| ==> '\n' !in body.sections[i].heading && NewlineFree(body.sections[i].lines)
  }

  lemma TrimNewlineFree(lines: seq<string>)
    requires NewlineFree(lines)
    ensures NewlineFree(TrimBlankLines(lines))
  {
    hide IsBlank, TrimBlankLines;
    var pre, mid, post := ChangelogSections.TrimParts(lines);
    forall i | 0 <= i < |mid| ensures '\n' !in StripBlanks(mid[i]) {
      assert mid[i] == lines[|pre| + i];
      assert StripBlanks(mid[i]) <= mid[i];
    }
  }

  /** One section as a block of text. */
  function BlockText(section: Section): string {
    var entries := TrimBlankLines(section.lines);
    HeadingLine(section.heading) + if entries == [] then "" else "\n\n" + Join(entries, '\n')
  }

  lemma BlockTextIs(section: Section)
    ensures BlockText(section) == Join(SectionBlock(section), '\n')
  {
    hide Join, TrimBlankLines;
    var head, entries := HeadingLine(section.heading), TrimBlankLines(section.lines);
    if entries == [] {
      JoinOne([head], '\n');
      assert SectionBlock(section) == [head] && BlockText(section) == head;
    } else {
      JoinStep("", entries, '\n');
      JoinStep(head, [""] + entries, '\n');
      assert SectionBlock(section) == [head] + ([""] + entries);
    }
  }

  /** Text after text with an empty line between. */
  lemma JoinAfter(lines: seq<string>, block: seq<string>)
    requires lines != [] && block != []
    ensures Join(lines + [""] + block, '\n') == Join(lines, '\n') + "\n\n" + Join(block, '\n')
  {
    hide Join;
    assert lines + [""] + block == lines + ([""] + block);
    JoinConcat(lines, [""] + block, '\n');
    JoinStep("", block, '\n');
  }

  lemma JoinFramed(lines: seq<string>)
    requires lines != []
    ensures Join([""] + lines + [""], '\n') == "\n" + Join(lines, '\n') + "\n"
    ensures Join(lines + [""], '\n') == Join(lines, '\n') + "\n"
  {
    hide Join;
    JoinOne([""], '\n');
    JoinConcat(lines, [""], '\n');
    assert [""] + lines + [""] == [""] + (lines + [""]);
    JoinStep("", lines + [""], '\n');
  }

  /** The text printed so far: what the head and the first blocks join to, less the leading line break. */
  ghost predicate Printed(text: Option<string>, head: seq<string>, sections: seq<Section>) {
    match text
    case None => head == [] && sections == []
    case Some(t) =>
      if head != [] then t == Join(head + SectionBlocks(sections), '\n')
      else sections != [] && "\n" + t == Join(SectionBlocks(sections), '\n')
  }

  lemma PrintedStep(text: Option<string>, head: seq<string>, sections: seq<Section>, section: Section)
    requires Printed(text, head, sections)
    ensures Printed(Some(if text.None? then BlockText(section) else text.value + "\n\n" + BlockText(section)),
                    head, sections + [section])
  {
    hide Join, BlockText, SectionBlock;
    var block, blocks := SectionBlock(section), SectionBlocks(sections);
    assert block != [] by { BlockIsSomething(section); }
    assert (sections + [section])[..|sections|] == sections;
    assert SectionBlocks(sections + [section]) == blocks + [""] + block;
    BlockTextIs(section);
    match text
    case None =>
      assert [] + [""] + block == [""] + block;
      JoinStep("", block, '\n');
    case Some(t) =>
      if head != [] {
        JoinAfter(head + blocks, block);
        assert head + (blocks + [""] + block) == head + blocks + [""] + block;
      } else {
        assert blocks != [];
        JoinAfter(blocks, block);
      }
  }

  lemma BlockIsSomething(section: Section)
    ensures SectionBlock(section) != []
  {
  }

  lemma {:induction false} BlocksAreNewlineFree(sections: seq<Section>)
    requires forall i :: 0 <= i < |sections| ==> '\n' !in sections[i].heading && NewlineFree(sections[i].lines)
    ensures NewlineFree(SectionBlocks(sections))
  {
    hide TrimBlankLines;
    if sections != [] {
      BlocksAreNewlineFree(sections[..|sections| - 1]);
      TrimNewlineFree(sections[|sections| - 1].lines);
    }
  }

  lemma SameTextSameLines(a: seq<string>, b: seq<string>)
    requires a != [] && b != [] && NewlineFree(a) && NewlineFree(b) && Join(a, '\n') == Join(b, '\n')
    ensures a == b
  {
    hide Join, Split;
    SplitJoin(a, '\n');
    SplitJoin(b, '\n');
  }

  /**
   * renderBodyLines: push blocks, join them with an empty line between, split into lines. The text is
   * the specified one for every body, and so are the lines when no line holds a line break.
   */
  method RenderBody(body: Body) returns (lines: seq<string>)
    ensures lines != [] && RenderBodyLines(body) != []
    ensures Join(lines, '\n') == Join(RenderBodyLines(body), '\n')
    ensures NewlineFreeBody(body) ==> lines == RenderBodyLines(body)
  {
    hide Split, Join, TrimBlankLines, SectionBlock, SectionBlocks, BlockText;
    var text: Option<string> := None;
    var head := TrimBlankLinesLoop(body.preamble);
    if head != [] {
      text := Some(Join(head, '\n'));
    }
    assert Printed(text, head, body.sections[..0]) by { NothingPrinted(head, body.sections[..0]); }
    for i := 0 to |body.sections|
      invariant Printed(text, head, body.sections[..i])
    {
      PrintedStep(text, head, body.sections[..i], body.sections[i]);
      assert body.sections[..i + 1] == body.sections[..i] + [body.sections[i]];
      text := Some(if text.None? then BlockText(body.sections[i]) else text.value + "\n\n" + BlockText(body.sections[i]));
    }
    assert body.sections[..|body.sections|] == body.sections;
    if text.None? {
      lines := [""];
      assert RenderBodyLines(body) == lines;
    } else {
      lines := [""] + Split(text.value, '\n') + [""];
      FramedText(body, head, text.value);
      FramedLines(body, text.value);
    }
  }

  lemma NothingPrinted(head: seq<string>, none: seq<Section>)
    requires none == []
    ensures Printed(if head == [] then None else Some(Join(head, '\n')), head, none)
  {
    hide Join;
    assert head + SectionBlocks(none) == head;
  }

  lemma FramedText(body: Body, head: seq<string>, text: string)
    requires head == TrimBlankLines(body.preamble) && Printed(Some(text), head, body.sections)
    ensures RenderBodyLines(body) != []
    ensures Join([""] + Split(text, '\n') + [""], '\n') == Join(RenderBodyLines(body), '\n')
  {
    hide Split, Join, TrimBlankLines, SectionBlocks;
    JoinFramed(Split(text, '\n'));
    JoinSplit(text, '\n');
    var blocks := SectionBlocks(body.sections);
    if head != [] {
      JoinFramed(head + blocks);
      assert [""] + head + blocks + [""] == [""] + (head + blocks) + [""];
    } else {
      assert blocks != [] by { BlocksAreSomething(body.sections); }
      JoinFramed(blocks);
    }
  }

  lemma BlocksAreSomething(sections: seq<Section>)
    requires sections != []
    ensures SectionBlocks(sections) != []
  {
    hide SectionBlock;
  }

  lemma FramedLines(body: Body, text: string)
    requires RenderBodyLines(body) != []
    requires Join([""] + Split(text, '\n') + [""], '\n') == Join(RenderBodyLines(body), '\n')
    ensures NewlineFreeBody(body) ==> [""] + Split(text, '\n') + [""] == RenderBodyLines(body)
  {
    hide Split, Join, TrimBlankLines, SectionBlocks;
    if NewlineFreeBody(body) {
      SplitParts(text, '\n');
      TrimNewlineFree(body.preamble);
      BlocksAreNewlineFree(body.sections);
      SameTextSameLines([""] + Split(text, '\n') + [""], RenderBodyLines(body));
    }
  }

  // ---- Split bodies ----

  predicate WellFormedSection(section: Section) {
    NoHeadings(section.lines) && (section.heading == "" || Printable(section.heading))
  }

  /** What splitting produces: no heading left among the lines, and headings a `###` line can give. */
  predicate WellFormedBody(body: Body) {
    NoHeadings(body.preamble) && forall i :: 0 <= i < |body.sections| ==> WellFormedSection(body.sections[i])
  }

  predicate NoBlankHeadings(body: Body) {
    forall i :: 0 <= i < |body.sections| ==> body.sections[i].heading != ""
  }

  lemma {:induction false} SplitIsWellFormed(lines: seq<string>)
    ensures WellFormedBody(SplitSections(lines))
  {
    hide SectionHeading, Printable;
    if lines != [] {
      SplitIsWellFormed(lines[..|lines| - 1]);
      var last := lines[|lines| - 1];
      if SectionHeading(last).Some? {
        SectionHeadingShape(last);
      }
    }
  }

  // ---- What printing does not change ----

  function Trimmed(section: Section): Section {
    Section(section.heading, TrimBlankLines(section.lines))
  }

  function TrimmedSections(sections: seq<Section>): seq<Section> {
    seq(|sections|, i requires 0 <= i < |sections| => Trimmed(sections[i]))
  }

  /** A body up to blank lines around its parts and trailing blanks. */
  function TrimmedBody(body: Body): Body {
    Body(TrimBlankLines(body.preamble), TrimmedSections(body.sections))
  }

  lemma TrimTwice(lines: seq<string>)
    ensures TrimBlankLines(TrimBlankLines(lines)) == TrimBlankLines(lines)
  {
    hide TrimBlankLines;
    var neat := TrimBlankLines(lines);
    TrimIsNeat(lines);
    NeatIsTrimmed([], neat, []);
    assert [] + neat + [] == neat;
  }

  lemma TrimDropsEmpty(lines: seq<string>)
    ensures TrimBlankLines(lines + [""]) == TrimBlankLines(lines)
  {
    hide TrimBlankLines, IsBlank;
    var pre, mid, post := ChangelogSections.TrimParts(lines);
    assert lines + [""] == pre + mid + (post + [""]);
    assert IsBlank("") by { EmptyIsBlank(); }
    TrimBlankLinesIs(pre, mid, post + [""]);
  }

  lemma EmptyIsBlank()
    ensures IsBlank("") && SectionHeading("").None? && AllBlank([""]) && AllBlank([]) && NoHeadings([""])
  {
  }

  lemma {:induction false} BlocksOfTrimmed(sections: seq<Section>)
    ensures SectionBlocks(TrimmedSections(sections)) == SectionBlocks(sections)
  {
    hide TrimBlankLines;
    if sections != [] {
      var front, last := sections[..|sections| - 1], sections[|sections| - 1];
      BlocksOfTrimmed(front);
      assert TrimmedSections(sections)[..|sections| - 1] == TrimmedSections(front);
      TrimTwice(last.lines);
    }
  }

  /** Printing sees a body only up to trimming. */
  lemma PrintOfTrimmed(body: Body)
    ensures RenderBodyLines(TrimmedBody(body)) == RenderBodyLines(body)
  {
    hide TrimBlankLines, SectionBlocks;
    TrimTwice(body.preamble);
    BlocksOfTrimmed(body.sections);
  }

  // ---- Splitting a print ----

  lemma EmptyLineIsTrimmedAway(body: Body)
    ensures TrimmedBody(AddLine(body, "")) == TrimmedBody(body)
  {
    hide TrimBlankLines, SectionHeading;
    EmptyIsBlank();
    if body.sections == [] {
      TrimDropsEmpty(body.preamble);
    } else {
      TrimDropsEmpty(body.sections[|body.sections| - 1].lines);
    }
  }

  lemma NoHeadingsTrimmed(lines: seq<string>)
    requires NoHeadings(lines)
    ensures NoHeadings(TrimBlankLines(lines))
  {
    hide TrimBlankLines, SectionHeading;
    var pre, mid, post := ChangelogSections.TrimParts(lines);
    forall i | 0 <= i < |mid| ensures SectionHeading(StripBlanks(mid[i])).None? {
      assert mid[i] == lines[|pre| + i];
      StripMakesNoHeading(mid[i]);
    }
  }

  /** A printed section is found again, whatever was printed before it. */
  lemma BlockIsReadBack(body: Body, section: Section)
    requires WellFormedSection(section) && section.heading != ""
    ensures TrimmedBody(AddLines(body, SectionBlock(section)))
         == Body(TrimBlankLines(body.preamble), TrimmedSections(body.sections) + [Trimmed(section)])
  {
    hide TrimBlankLines, SectionHeading, AddLines, AddLine, NoHeadings, Extend;
    var line, entries := HeadingLine(section.heading), TrimBlankLines(section.lines);
    var begun := AddLine(body, line);
    assert begun == body.(sections := body.sections + [Section(section.heading, [])]) by {
      HeadingRoundTrip(section.heading);
      OpensSection(body, line);
    }
    AddLinesOne(body, line);
    EmptyIsBlank();
    if entries == [] {
      NeatIsTrimmed([], entries, []);
      assert [] + entries + [] == entries;
      assert SectionBlock(section) == [line];
    } else {
      NoHeadingsTrimmed(section.lines);
      PlainAfterEmpty(entries);
      AddLinesConcat(body, [line], [""] + entries);
      PlainLinesExtend(begun, [""] + entries);
      assert [] + ([""] + entries) == [""] + entries + [];
      TrimIsNeat(section.lines);
      NeatIsTrimmed([""], entries, []);
      ExtendOpened(body, section.heading, [""] + entries);
    }
  }

  lemma OpensSection(body: Body, line: string)
    requires SectionHeading(line).Some?
    ensures AddLine(body, line) == body.(sections := body.sections + [Section(SectionHeading(line).value, [])])
  {
    hide SectionHeading;
  }

  lemma PlainAfterEmpty(entries: seq<string>)
    requires NoHeadings(entries)
    ensures NoHeadings([""] + entries)
  {
    hide SectionHeading;
    EmptyIsBlank();
  }

  lemma ExtendOpened(body: Body, heading: string, lines: seq<string>)
    ensures Extend(body.(sections := body.sections + [Section(heading, [])]), lines)
         == body.(sections := body.sections + [Section(heading, [] + lines)])
  {
  }

  lemma {:induction false} BlocksAreReadBack(body: Body, sections: seq<Section>)
    requires forall i :: 0 <= i < |sections| ==> WellFormedSection(sections[i]) && sections[i].heading != ""
    ensures TrimmedBody(AddLines(body, SectionBlocks(sections)))
         == Body(TrimBlankLines(body.preamble), TrimmedSections(body.sections) + TrimmedSections(sections))
  {
    hide TrimBlankLines, AddLine, SectionBlock, WellFormedSection;
    if sections == [] {
      assert TrimmedSections(body.sections) + [] == TrimmedSections(body.sections);
    } else {
      var front, last := sections[..|sections| - 1], sections[|sections| - 1];
      BlocksAreReadBack(body, front);
      var before := AddLines(body, SectionBlocks(front));
      var separated := AddLine(before, "");
      AddLinesConcat(body, SectionBlocks(front) + [""], SectionBlock(last));
      AddLinesConcat(body, SectionBlocks(front), [""]);
      AddLinesOne(before, "");
      EmptyLineIsTrimmedAway(before);
      BlockIsReadBack(separated, last);
      assert TrimmedSections(sections) == TrimmedSections(front) + [Trimmed(last)];
    }
  }

  function Lead(body: Body): seq<string> {
    if TrimBlankLines(body.preamble) == [] then [] else [""] + TrimBlankLines(body.preamble)
  }

  lemma RenderIs(body: Body)
    ensures RenderBodyLines(body) == Lead(body) + SectionBlocks(body.sections) + [""]
  {
    hide TrimBlankLines, SectionBlock;
  }

  lemma LeadIsReadBack(body: Body)
    requires NoHeadings(body.preamble)
    ensures AddLines(EMPTY, Lead(body)) == Body(Lead(body), [])
    ensures TrimBlankLines(Lead(body)) == TrimBlankLines(body.preamble)
  {
    hide TrimBlankLines, SectionHeading, AddLines, NoHeadings;
    var head := TrimBlankLines(body.preamble);
    TrimIsNeat(body.preamble);
    EmptyIsBlank();
    if head == [] {
      NeatIsTrimmed([], [], []);
      assert [] + [] + [] == Lead(body);
      assert AddLines(EMPTY, []) == EMPTY by { AddNothing(); }
    } else {
      NoHeadingsTrimmed(body.preamble);
      PlainAfterEmpty(head);
      PlainLinesExtend(EMPTY, [""] + head);
      NeatIsTrimmed([""], head, []);
      assert [""] + head + [] == Lead(body);
    }
  }

  lemma AddNothing()
    ensures AddLines(EMPTY, []) == EMPTY
  {
  }

  /** Printing loses nothing: a split body without blank headings is read back from its print. */
  lemma PrintIsReadBack(body: Body)
    requires WellFormedBody(body) && NoBlankHeadings(body)
    ensures TrimmedBody(SplitSections(RenderBodyLines(body))) == TrimmedBody(body)
  {
    hide TrimBlankLines, AddLines, AddLine, SectionBlocks, RenderBodyLines, WellFormedSection, NoHeadings;
    RenderIs(body);
    LeadIsReadBack(body);
    var lead := Body(Lead(body), []);
    var blocks := SectionBlocks(body.sections);
    BlocksAreReadBack(lead, body.sections);
    AddLinesConcat(EMPTY, Lead(body) + blocks, [""]);
    AddLinesConcat(EMPTY, Lead(body), blocks);
    var all := AddLines(lead, blocks);
    AddLinesOne(all, "");
    EmptyLineIsTrimmedAway(all);
    assert TrimmedSections([]) + TrimmedSections(body.sections) == TrimmedSections(body.sections);
  }

  // ---- When printing is stable ----

  /** Every printed line is empty, a section's heading, or a line without trailing blanks that is no heading. */
  predicate PrintedFrom(line: string, sections: seq<Section>) {
    || line == ""
    || (exists i :: 0 <= i < |sections| && line == HeadingLine(sections[i].heading))
    || (StripBlanks(line) == line && SectionHeading(line).None?)
  }

  lemma TrimmedLinesPrint(lines: seq<string>, sections: seq<Section>)
    requires NoHeadings(lines)
    ensures forall line :: line in TrimBlankLines(lines) ==> PrintedFrom(line, sections)
  {
    hide TrimBlankLines, SectionHeading, IsBlank;
    NoHeadingsTrimmed(lines);
    TrimIsNeat(lines);
  }

  lemma {:induction false} BlocksPrint(sections: seq<Section>)
    requires forall i :: 0 <= i < |sections| ==> WellFormedSection(sections[i])
    ensures forall line :: line in SectionBlocks(sections) ==> PrintedFrom(line, sections)
  {
    hide TrimBlankLines, SectionHeading, Printable;
    if sections != [] {
      var front, last := sections[..|sections| - 1], sections[|sections| - 1];
      BlocksPrint(front);
      TrimmedLinesPrint(last.lines, sections);
      forall line | line in SectionBlocks(front) ensures PrintedFrom(line, sections) {
        assert PrintedFrom(line, front);
        if i :| 0 <= i < |front| && line == HeadingLine(front[i].heading) {
          assert sections[i] == front[i];
        }
      }
      assert sections[|sections| - 1] == last;
    }
  }

  lemma PrintedLines(body: Body)
    requires WellFormedBody(body)
    ensures forall line :: line in RenderBodyLines(body) ==> PrintedFrom(line, body.sections)
  {
    hide TrimBlankLines, SectionBlocks, PrintedFrom, WellFormedSection, NoHeadings, RenderBodyLines;
    RenderIs(body);
    BlocksPrint(body.sections);
    TrimmedLinesPrint(body.preamble, body.sections);
    assert PrintedFrom("", body.sections) by { EmptyIsPrinted(body.sections); }
  }

  lemma EmptyIsPrinted(sections: seq<Section>)
    ensures PrintedFrom("", sections)
  {
  }

  /** A section's heading comes from one of the lines. */
  lemma {:induction false} HeadingsComeFromLines(lines: seq<string>)
    ensures forall i :: 0 <= i < |SplitSections(lines).sections| ==>
              exists line :: line in lines && SectionHeading(line) == Some(SplitSections(lines).sections[i].heading)
  {
    hide SectionHeading;
    if lines == [] {
      assert SplitSections(lines).sections == [];
    } else {
      var front, last := lines[..|lines| - 1], lines[|lines| - 1];
      HeadingsComeFromLines(front);
      var before, after := SplitSections(front), SplitSections(lines);
      forall i | 0 <= i < |after.sections|
        ensures exists line :: line in lines && SectionHeading(line) == Some(after.sections[i].heading)
      {
        if i < |before.sections| {
          assert after.sections[i].heading == before.sections[i].heading;
          var line :| line in front && SectionHeading(line) == Some(before.sections[i].heading);
          assert line in lines;
        } else {
          assert last in lines;
        }
      }
    }
  }

  lemma ReadBackHasNoBlankHeadings(body: Body)
    requires WellFormedBody(body)
    ensures NoBlankHeadings(SplitSections(RenderBodyLines(body)))
  {
    hide SectionHeading, SplitSections, RenderBodyLines, Printable, NoHeadings;
    var lines := RenderBodyLines(body);
    PrintedLines(body);
    HeadingsComeFromLines(lines);
    var again := SplitSections(lines);
    EmptyIsBlank();
    forall i | 0 <= i < |again.sections| ensures again.sections[i].heading != "" {
      var line :| line in lines && SectionHeading(line) == Some(again.sections[i].heading);
      assert PrintedFrom(line, body.sections);
      if j :| 0 <= j < |body.sections| && line == HeadingLine(body.sections[j].heading) {
        assert WellFormedSection(body.sections[j]);
        HeadingRoundTrip(body.sections[j].heading);
      }
    }
  }

  lemma {:induction false} HeadingIsPrinted(sections: seq<Section>, i: nat)
    requires i < |sections|
    ensures HeadingLine(sections[i].heading) in SectionBlocks(sections)
  {
    hide TrimBlankLines;
    var n := |sections| - 1;
    if i == n {
      assert SectionBlock(sections[n])[0] == HeadingLine(sections[n].heading);
      assert HeadingLine(sections[n].heading) in SectionBlock(sections[n]);
    } else {
      HeadingIsPrinted(sections[..n], i);
    }
  }

  /** Without blank headings no printed line is a bare `### `. */
  lemma BareHeadingIsNotPrinted(body: Body)
    requires WellFormedBody(body) && NoBlankHeadings(body)
    ensures HeadingLine("") !in RenderBodyLines(body)
  {
    hide SectionHeading, RenderBodyLines, Printable, NoHeadings;
    PrintedLines(body);
    var bare := HeadingLine("");
    assert bare == "### " && bare[3] == ' ' && StripBlanks(bare) != bare;
    forall i | 0 <= i < |body.sections| ensures bare != HeadingLine(body.sections[i].heading) {
      assert |HeadingLine(body.sections[i].heading)| == 4 + |body.sections[i].heading|;
    }
    assert !PrintedFrom(bare, body.sections);
  }

  /**
   * Splitting and printing a printed body again gives the same lines exactly when no heading is
   * blank. A blank heading is printed as a line that is not read as a heading any more.
   */
  lemma PrintIsStable(body: Body)
    requires WellFormedBody(body)
    ensures RenderBodyLines(SplitSections(RenderBodyLines(body))) == RenderBodyLines(body) <==> NoBlankHeadings(body)
  {
    hide SplitSections, RenderBodyLines, TrimmedBody, WellFormedBody, SectionBlocks, Lead;
    var lines := RenderBodyLines(body);
    var again := SplitSections(lines);
    if NoBlankHeadings(body) {
      PrintIsReadBack(body);
      PrintOfTrimmed(body);
      PrintOfTrimmed(again);
    } else {
      var i :| 0 <= i < |body.sections| && body.sections[i].heading == "";
      HeadingIsPrinted(body.sections, i);
      RenderIs(body);
      assert HeadingLine("") in lines;
      SplitIsWellFormed(lines);
      ReadBackHasNoBlankHeadings(body);
      BareHeadingIsNotPrinted(again);
    }
  }

  /** The smallest body that is not stable. */
  lemma BlankHeadingIsUnstable()
    ensures var body := Body([], [Section("", [])]);
            WellFormedBody(body) && RenderBodyLines(SplitSections(RenderBodyLines(body))) != RenderBodyLines(body)
  {
    hide SplitSections, RenderBodyLines;
    var body := Body([], [Section("", [])]);
    assert body.sections[0].heading == "";
    PrintIsStable(body);
  }

  // ---- Splitting keeps every note ----

  function PlainLines(lines: seq<string>): seq<string> {
    if lines == [] then []
    else PlainLines(lines[..|lines| - 1]) + if SectionHeading(lines[|lines| - 1]).Some? then [] else [lines[|lines| - 1]]
  }

  function Headings(lines: seq<string>): seq<string> {
    if lines == [] then []
    else
      Headings(lines[..|lines| - 1])
      + match SectionHeading(lines[|lines| - 1]) { case Some(heading) => [heading] case None => [] }
  }

  function SectionNotes(sections: seq<Section>): seq<string> {
    if sections == [] then []
    else SectionNotes(sections[..|sections| - 1]) + Notes(sections[|sections| - 1].lines)
  }

  function BodyNotes(body: Body): seq<string> {
    Notes(body.preamble) + SectionNotes(body.sections)
  }

  function SectionHeadings(sections: seq<Section>): seq<string> {
    seq(|sections|, i requires 0 <= i < |sections| => sections[i].heading)
  }

  /** A split body holds exactly the notes and the headings of its lines, in order. */
  lemma {:induction false} SplitKeepsEverything(lines: seq<string>)
    ensures BodyNotes(SplitSections(lines)) == Notes(PlainLines(lines))
    ensures SectionHeadings(SplitSections(lines).sections) == Headings(lines)
  {
    hide SectionHeading, Note;
    if lines != [] {
      var front, last := lines[..|lines| - 1], lines[|lines| - 1];
      SplitKeepsEverything(front);
      var before := SplitSections(front);
      if SectionHeading(last).Some? {
        var section := Section(SectionHeading(last).value, []);
        assert (before.sections + [section])[..|before.sections|] == before.sections;
        assert SectionNotes(before.sections + [section]) == SectionNotes(before.sections);
        assert PlainLines(lines) == PlainLines(front);
      } else {
        NotesOne(last);
        NotesConcat(PlainLines(front), [last]);
        AddedNote(before, last);
      }
    }
  }

  lemma AddedNote(body: Body, line: string)
    requires SectionHeading(line).None?
    ensures BodyNotes(AddLine(body, line)) == BodyNotes(body) + Note(line)
    ensures SectionHeadings(AddLine(body, line).sections) == SectionHeadings(body.sections)
  {
    hide SectionHeading, Note;
    NotesOne(line);
    if body.sections == [] {
      NotesConcat(body.preamble, [line]);
    } else {
      var n := |body.sections| - 1;
      var after := AddLine(body, line).sections;
      NotesConcat(body.sections[n].lines, [line]);
      assert after[..n] == body.sections[..n];
      assert after[n].lines == body.sections[n].lines + [line];
    }
  }
}
