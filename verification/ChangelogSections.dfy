/**
 * Sections of an unreleased body: its notes, trimming it, splitting it and the lines it prints
 * as (scripts/changelog-fragments.ts).
 */
module ChangelogSections {
  import opened Text
  import opened ChangelogText

  datatype Section = Section(heading: string, lines: seq<string>)

  datatype Body = Body(preamble: seq<string>, sections: seq<Section>)

  // ---- Notes: the lines that must never be lost ----

  /** The non-blank lines, without their trailing blanks. */
  function Notes(lines: seq<string>): seq<string> {
    if lines == [] then []
    else Notes(lines[..|lines| - 1]) + Note(lines[|lines| - 1])
  }

  function Note(line: string): seq<string> {
    if IsBlank(line) then [] else [StripBlanks(line)]
  }

  lemma {:induction false} NotesConcat(a: seq<string>, b: seq<string>)
    ensures Notes(a + b) == Notes(a) + Notes(b)
  {
    hide Note;
    if b == [] {
      assert a + b == a;
    } else {
      assert (a + b)[..|a + b| - 1] == a + b[..|b| - 1];
      NotesConcat(a, b[..|b| - 1]);
    }
  }

  lemma NotesOne(line: string)
    ensures Notes([line]) == Note(line)
  {
    hide Note;
    assert [line][..0] == [];
  }

  // ---- Trimming blank lines ----

  function DropBlankFront(lines: seq<string>): seq<string> {
    if lines != [] && IsBlank(lines[0]) then DropBlankFront(lines[1..]) else lines
  }

  function DropBlankBack(lines: seq<string>): seq<string> {
    if lines != [] && IsBlank(lines[|lines| - 1]) then DropBlankBack(lines[..|lines| - 1]) else lines
  }

  function StripAll(lines: seq<string>): (r: seq<string>)
    ensures |r| == |lines| && forall i :: 0 <= i < |r| ==> r[i] == StripBlanks(lines[i])
  {
    seq(|lines|, i requires 0 <= i < |lines| => StripBlanks(lines[i]))
  }

  function TrimBlankLines(lines: seq<string>): seq<string> {
    StripAll(DropBlankBack(DropBlankFront(lines)))
  }

  predicate AllBlank(lines: seq<string>) {
    forall i :: 0 <= i < |lines| ==> IsBlank(lines[i])
  }

  /** No blank line at either end, and no trailing blanks. */
  predicate Neat(lines: seq<string>) {
    && (lines != [] ==> !IsBlank(lines[0]) && !IsBlank(lines[|lines| - 1]))
    && forall i :: 0 <= i < |lines| ==> StripBlanks(lines[i]) == lines[i]
  }

  lemma {:induction false} DropBlankFrontIs(pre: seq<string>, rest: seq<string>)
    requires AllBlank(pre) && (rest != [] ==> !IsBlank(rest[0]))
    ensures DropBlankFront(pre + rest) == rest
  {
    hide IsBlank;
    if pre == [] {
      assert pre + rest == rest;
    } else {
      assert (pre + rest)[1..] == pre[1..] + rest;
      DropBlankFrontIs(pre[1..], rest);
    }
  }

  lemma {:induction false} DropBlankBackIs(rest: seq<string>, post: seq<string>)
    requires AllBlank(post) && (rest != [] ==> !IsBlank(rest[|rest| - 1]))
    ensures DropBlankBack(rest + post) == rest
  {
    hide IsBlank;
    if post == [] {
      assert rest + post == rest;
    } else {
      assert (rest + post)[..|rest + post| - 1] == rest + post[..|post| - 1];
      DropBlankBackIs(rest, post[..|post| - 1]);
    }
  }

  /** Trimming finds the only middle with blank lines around it and none at its ends. */
  lemma TrimBlankLinesIs(pre: seq<string>, mid: seq<string>, post: seq<string>)
    requires AllBlank(pre) && AllBlank(post) && (mid != [] ==> !IsBlank(mid[0]) && !IsBlank(mid[|mid| - 1]))
    ensures TrimBlankLines(pre + mid + post) == StripAll(mid)
  {
    hide IsBlank, DropBlankFront, DropBlankBack;
    if mid == [] {
      assert pre + mid + post == (pre + post) + [];
      DropBlankFrontIs(pre + post, []);
      DropBlankBackIs(mid, []);
      assert mid + [] == mid;
    } else {
      assert pre + mid + post == pre + (mid + post);
      DropBlankFrontIs(pre, mid + post);
      DropBlankBackIs(mid, post);
    }
  }

  lemma {:induction false} DropBlankFrontParts(lines: seq<string>) returns (pre: seq<string>)
    ensures lines == pre + DropBlankFront(lines) && AllBlank(pre)
    ensures DropBlankFront(lines) != [] ==> !IsBlank(DropBlankFront(lines)[0])
  {
    hide IsBlank;
    if lines != [] && IsBlank(lines[0]) {
      var inner := DropBlankFrontParts(lines[1..]);
      pre := [lines[0]] + inner;
    } else {
      pre := [];
    }
  }

  lemma {:induction false} DropBlankBackParts(lines: seq<string>) returns (post: seq<string>)
    ensures lines == DropBlankBack(lines) + post && AllBlank(post)
    ensures DropBlankBack(lines) != [] ==> !IsBlank(DropBlankBack(lines)[|DropBlankBack(lines)| - 1])
  {
    hide IsBlank;
    if lines != [] && IsBlank(lines[|lines| - 1]) {
      var inner := DropBlankBackParts(lines[..|lines| - 1]);
      post := inner + [lines[|lines| - 1]];
    } else {
      post := [];
    }
  }

  lemma TrimParts(lines: seq<string>) returns (pre: seq<string>, mid: seq<string>, post: seq<string>)
    ensures lines == pre + mid + post && AllBlank(pre) && AllBlank(post)
    ensures mid != [] ==> !IsBlank(mid[0]) && !IsBlank(mid[|mid| - 1])
    ensures TrimBlankLines(lines) == StripAll(mid)
  {
    hide IsBlank, DropBlankFront, DropBlankBack;
    pre := DropBlankFrontParts(lines);
    var rest := DropBlankFront(lines);
    post := DropBlankBackParts(rest);
    mid := DropBlankBack(rest);
    assert lines == pre + (mid + post);
    assert mid != [] ==> mid[0] == rest[0];
  }

  lemma TrimIsNeat(lines: seq<string>)
    ensures Neat(TrimBlankLines(lines))
  {
    hide IsBlank, TrimBlankLines;
    var pre, mid, post := TrimParts(lines);
    forall i | 0 <= i < |mid| ensures StripBlanks(StripAll(mid)[i]) == StripAll(mid)[i] {
      StripAgain(mid[i]);
    }
    if mid != [] {
      StripAgain(mid[0]);
      StripAgain(mid[|mid| - 1]);
    }
  }

  /** Trimming neat lines does nothing, however many blank lines are put around them. */
  lemma NeatIsTrimmed(pre: seq<string>, lines: seq<string>, post: seq<string>)
    requires AllBlank(pre) && AllBlank(post) && Neat(lines)
    ensures TrimBlankLines(pre + lines + post) == lines
  {
    hide IsBlank, TrimBlankLines;
    TrimBlankLinesIs(pre, lines, post);
  }

  lemma {:induction false} NotesOfBlank(lines: seq<string>)
    requires AllBlank(lines)
    ensures Notes(lines) == []
  {
    if lines != [] {
      NotesOfBlank(lines[..|lines| - 1]);
    }
  }

  lemma {:induction false} NotesOfStripped(lines: seq<string>)
    ensures Notes(StripAll(lines)) == Notes(lines)
  {
    hide IsBlank;
    if lines != [] {
      var front, last := lines[..|lines| - 1], lines[|lines| - 1];
      NotesOfStripped(front);
      assert StripAll(lines)[..|lines| - 1] == StripAll(front);
      StripAgain(last);
    }
  }

  /** Trimming loses no note. */
  lemma TrimKeepsNotes(lines: seq<string>)
    ensures Notes(TrimBlankLines(lines)) == Notes(lines)
  {
    hide IsBlank, TrimBlankLines, Notes;
    var pre, mid, post := TrimParts(lines);
    NotesConcat(pre + mid, post);
    NotesConcat(pre, mid);
    NotesOfBlank(pre);
    NotesOfBlank(post);
    NotesOfStripped(mid);
  }

  /** trimBlankLines: two index loops and a slice. */
  method TrimBlankLinesLoop(lines: seq<string>) returns (trimmed: seq<string>)
    ensures trimmed == TrimBlankLines(lines)
  {
    hide IsBlank, TrimBlankLines;
    var start, end := 0, |lines|;
    while start < end && IsBlank(lines[start])
      invariant 0 <= start <= end == |lines|
      invariant AllBlank(lines[..start])
    {
      start := start + 1;
    }
    while end > start && IsBlank(lines[end - 1])
      invariant start <= end <= |lines|
      invariant AllBlank(lines[end..])
      invariant start < end ==> !IsBlank(lines[start])
    {
      end := end - 1;
    }
    assert lines == lines[..start] + lines[start..end] + lines[end..];
    TrimBlankLinesIs(lines[..start], lines[start..end], lines[end..]);
    trimmed := StripAll(lines[start..end]);
  }

  // ---- Splitting a body into sections ----

  function AddLine(body: Body, line: string): Body {
    match SectionHeading(line)
    case Some(heading) => body.(sections := body.sections + [Section(heading, [])])
    case None =>
      if body.sections == [] then body.(preamble := body.preamble + [line])
      else
        var n := |body.sections| - 1;
        body.(sections := body.sections[n := Section(body.sections[n].heading, body.sections[n].lines + [line])])
  }

  function AddLines(body: Body, lines: seq<string>): Body {
    if lines == [] then body else AddLine(AddLines(body, lines[..|lines| - 1]), lines[|lines| - 1])
  }

  const EMPTY := Body([], [])

  function SplitSections(lines: seq<string>): Body {
    AddLines(EMPTY, lines)
  }

  lemma {:induction false} AddLinesConcat(body: Body, a: seq<string>, b: seq<string>)
    ensures AddLines(body, a + b) == AddLines(AddLines(body, a), b)
  {
    hide AddLine;
    if b == [] {
      assert a + b == a;
    } else {
      assert (a + b)[..|a + b| - 1] == a + b[..|b| - 1];
      AddLinesConcat(body, a, b[..|b| - 1]);
    }
  }

  lemma AddLinesOne(body: Body, line: string)
    ensures AddLines(body, [line]) == AddLine(body, line)
  {
    hide AddLine;
    assert [line][..0] == [];
  }

  predicate NoHeadings(lines: seq<string>) {
    forall i :: 0 <= i < |lines| ==> SectionHeading(lines[i]).None?
  }

  function Extend(body: Body, lines: seq<string>): Body {
    if body.sections == [] then body.(preamble := body.preamble + lines)
    else
      var n := |body.sections| - 1;
      body.(sections := body.sections[n := Section(body.sections[n].heading, body.sections[n].lines + lines)])
  }

  /** Lines that are no headings go, in order, to the section that is open. */
  lemma {:induction false} PlainLinesExtend(body: Body, lines: seq<string>)
    requires NoHeadings(lines)
    ensures AddLines(body, lines) == Extend(body, lines)
  {
    hide SectionHeading;
    if lines == [] {
      assert body.preamble + [] == body.preamble;
      if body.sections != [] {
        var n := |body.sections| - 1;
        assert body.sections[n].lines + [] == body.sections[n].lines;
        assert body.sections[n := body.sections[n]] == body.sections;
      }
    } else {
      var front, last := lines[..|lines| - 1], lines[|lines| - 1];
      PlainLinesExtend(body, front);
      assert lines == front + [last];
      assert body.preamble + lines == body.preamble + front + [last];
      if body.sections != [] {
        var n := |body.sections| - 1;
        assert body.sections[n].lines + lines == body.sections[n].lines + front + [last];
      }
    }
  }

  // ---- Printing ----

  function SectionBlock(section: Section): seq<string> {
    var entries := TrimBlankLines(section.lines);
    [HeadingLine(section.heading)] + if entries == [] then [] else [""] + entries
  }

  /** Every block after the first is preceded by one empty line. */
  function SectionBlocks(sections: seq<Section>): seq<string> {
    if sections == [] then []
    else SectionBlocks(sections[..|sections| - 1]) + [""] + SectionBlock(sections[|sections| - 1])
  }

  /** The printed body between its heading and the next one: [""] alone when there is nothing to print. */
  function RenderBodyLines(body: Body): (lines: seq<string>) {
    var head := TrimBlankLines(body.preamble);
    if head == [] && body.sections == [] then [""]
    else if head == [] then SectionBlocks(body.sections) + [""]
    else [""] + head + SectionBlocks(body.sections) + [""]
  }
}
