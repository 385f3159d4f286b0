/** Lines of a changelog: blanks, headings and bullets as scripts/changelog-fragments.ts reads them. */
module ChangelogText {
  import opened Lists
  import opened Text

  // ---- Blanks ----

  /** The trailing blanks and tabs every kept line loses. */
  function StripBlanks(line: string): (r: string)
    ensures r <= line
    ensures r != "" ==> r[|r| - 1] != ' ' && r[|r| - 1] != '\t'
    ensures forall i :: |r| <= i < |line| ==> line[i] in " \t"
  {
    if line != "" && line[|line| - 1] in " \t" then StripBlanks(line[..|line| - 1]) else line
  }

  lemma StripAgain(line: string)
    ensures StripBlanks(StripBlanks(line)) == StripBlanks(line)
    ensures IsBlank(StripBlanks(line)) <==> IsBlank(line)
  {
    var r := StripBlanks(line);
    if IsBlank(r) {
      forall i | 0 <= i < |line| ensures IsSpace(line[i]) {
        assert i < |r| ==> line[i] == r[i];
      }
    }
    if IsBlank(line) {
      forall i | 0 <= i < |r| ensures IsSpace(r[i]) {
        assert r[i] == line[i];
      }
    }
  }

  // ---- Headings and bullets ----

  predicate IsVersionHeading(line: string) {
    |line| > 2 && line[..2] == "##" && IsSpace(line[2])
  }

  predicate IsUnreleasedHeading(line: string) {
    IsVersionHeading(line) && Trim(line[2..]) == "[Unreleased]"
  }

  /** One or more `#` and then white space. */
  predicate IsAnyHeading(line: string) {
    exists n :: 0 < n < |line| && (forall i :: 0 <= i < n ==> line[i] == '#') && IsSpace(line[n])
  }

  predicate OneLine(s: string) {
    forall i :: 0 <= i < |s| ==> !IsTerminator(s[i])
  }

  /**
   * The heading of a `###` line. White space alone counts as an empty heading, but only when
   * at least two characters of it follow and one past the first is not a line terminator.
   */
  function SectionHeading(line: string): (heading: Option<string>) {
    if |line| > 3 && line[..3] == "###" && IsSpace(line[3]) then
      var body := Trim(line[3..]);
      if body != "" then (if OneLine(body) then Some(body) else None)
      else if exists i :: 4 <= i < |line| && !IsTerminator(line[i]) then Some("")
      else None
    else None
  }

  predicate IsBullet(line: string) {
    var text := TrimStart(line);
    |text| > 1 && text[0] == '-' && IsSpace(text[1]) && TrimStart(text[1..]) != ""
  }

  /** A heading a section can be printed under and found again. */
  predicate Printable(heading: string) {
    heading != "" && IsTrimmed(heading) && OneLine(heading)
  }

  lemma SectionHeadingShape(line: string)
    requires SectionHeading(line).Some?
    ensures IsAnyHeading(line) && !IsVersionHeading(line)
    ensures SectionHeading(line).value == "" || Printable(SectionHeading(line).value)
  {
    hide IsTerminator, IsSpace, Trim;
    PlainCharacters();
    var pre, post := TrimParts(line[3..]);
    assert forall i :: 0 <= i < 3 ==> line[i] == line[..3][i];
    assert line[2] == '#';
  }

  function HeadingLine(heading: string): string {
    "### " + heading
  }

  /** A printed heading is read back, exactly when it is not empty. */
  lemma HeadingRoundTrip(heading: string)
    ensures Printable(heading) ==> SectionHeading(HeadingLine(heading)) == Some(heading)
    ensures heading == "" ==> SectionHeading(HeadingLine(heading)) == None
    ensures !IsVersionHeading(HeadingLine(heading))
  {
    hide IsTerminator, IsSpace, Trim;
    PlainCharacters();
    var line := HeadingLine(heading);
    assert line[..3] == "###" && line[3] == ' ' && line[2] == '#';
    assert line[3..] == " " + heading;
    if Printable(heading) {
      assert line[3..] == " " + heading + "";
      TrimIs(" ", heading, "");
    } else if heading == "" {
      assert line[3..] == " " + "" + "";
      TrimIs(" ", "", "");
    }
  }

  /** Dropping trailing blanks turns no line into a heading. */
  lemma StripMakesNoHeading(line: string)
    ensures SectionHeading(line).None? ==> SectionHeading(StripBlanks(line)).None?
    ensures IsVersionHeading(StripBlanks(line)) ==> IsVersionHeading(line)
  {
    hide IsTerminator, IsSpace, Trim, StripBlanks;
    PlainCharacters();
    var r := StripBlanks(line);
    assert forall i :: 0 <= i < |r| ==> r[i] == line[i];
    if SectionHeading(r).Some? {
      assert line[..3] == r[..3];
      var pre, post := TrimParts(r[3..]);
      var tail := line[|r|..];
      assert IsBlank(post + tail) by {
        forall i | 0 <= i < |tail| ensures IsSpace(tail[i]) { assert line[|r| + i] in " \t"; }
      }
      assert line[3..] == pre + Trim(r[3..]) + (post + tail);
      TrimIs(pre, Trim(r[3..]), post + tail);
    }
  }
}
