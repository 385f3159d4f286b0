/**
 * mergeUnreleasedBody of scripts/changelog-fragments.ts: fragment sections join the last section
 * with the same key, or are introduced after the old ones in rank order.
 */
module ChangelogMerge {
  import opened Lists
  import opened Text
  import opened ChangelogText
  import opened ChangelogSections
  import opened ChangelogPrint

  /** `fold` is the lower-casing of the platform; nothing here depends on which one it is. */
  function Key(fold: string -> string, heading: string): string {
    fold(Trim(heading))
  }

  /** The index of the last heading with this key, or -1. */
  function Find(fold: string -> string, headings: seq<string>, key: string): (i: int)
    ensures -1 <= i < |headings|
    ensures i >= 0 ==> Key(fold, headings[i]) == key
    ensures forall j :: i < j < |headings| ==> Key(fold, headings[j]) != key
  {
    if headings == [] then -1
    else if Key(fold, headings[|headings| - 1]) == key then |headings| - 1
    else Find(fold, headings[..|headings| - 1], key)
  }

  function Joined(kept: seq<string>, added: seq<string>): seq<string> {
    TrimBlankLines(kept) + [""] + TrimBlankLines(added)
  }

  function MergeOne(fold: string -> string, sections: seq<Section>, section: Section): (merged: seq<Section>)
    ensures |sections| <= |merged|
  {
    var i := Find(fold, SectionHeadings(sections), Key(fold, section.heading));
    if i < 0 then sections + [section]
    else sections[i := Section(sections[i].heading, Joined(sections[i].lines, section.lines))]
  }

  function MergeAll(fold: string -> string, sections: seq<Section>, added: seq<Section>): (merged: seq<Section>)
    ensures |sections| <= |merged|
  {
    if added == [] then sections
    else MergeOne(fold, MergeAll(fold, sections, added[..|added| - 1]), added[|added| - 1])
  }

  // ---- Rank order ----

  const SECTION_ORDER: seq<string> := [
    "Added", "Changed", "Deprecated", "Removed", "Fixed", "Security", "Breaking Changes", "Documentation",
    "Performance", "Tests"]

  function RankFrom(fold: string -> string, key: string, order: seq<string>): nat {
    if order == [] || fold(order[0]) == key then 0 else 1 + RankFrom(fold, key, order[1..])
  }

  function Rank(fold: string -> string, heading: string): nat {
    RankFrom(fold, Key(fold, heading), SECTION_ORDER)
  }

  function Insert<T>(x: T, sorted: seq<T>, rank: T -> nat): seq<T> {
    if sorted == [] || rank(x) <= rank(sorted[0]) then [x] + sorted
    else [sorted[0]] + Insert(x, sorted[1..], rank)
  }

  /** A stable sort by rank. */
  function SortByRank<T>(s: seq<T>, rank: T -> nat): seq<T> {
    if s == [] then [] else Insert(s[0], SortByRank(s[1..], rank), rank)
  }

  predicate Ascending<T>(s: seq<T>, rank: T -> nat) {
    forall i, j :: 0 <= i < j < |s| ==> rank(s[i]) <= rank(s[j])
  }

  /** The elements of one rank, in order. */
  function OfRank<T>(s: seq<T>, rank: T -> nat, r: nat): seq<T> {
    if s == [] then [] else (if rank(s[0]) == r then [s[0]] else []) + OfRank(s[1..], rank, r)
  }

  lemma {:induction false} InsertKeeps<T>(x: T, sorted: seq<T>, rank: T -> nat)
    ensures multiset(Insert(x, sorted, rank)) == multiset{x} + multiset(sorted)
  {
    if sorted != [] && rank(x) > rank(sorted[0]) {
      InsertKeeps(x, sorted[1..], rank);
      assert sorted == [sorted[0]] + sorted[1..];
    }
  }

  lemma {:induction false} InsertSorts<T>(x: T, sorted: seq<T>, rank: T -> nat)
    requires Ascending(sorted, rank)
    ensures Ascending(Insert(x, sorted, rank), rank)
  {
    if sorted != [] && rank(x) > rank(sorted[0]) {
      var rest := sorted[1..];
      var tail := Insert(x, rest, rank);
      InsertSorts(x, rest, rank);
      InsertKeeps(x, rest, rank);
      forall i | 0 <= i < |tail| ensures rank(sorted[0]) <= rank(tail[i]) {
        assert tail[i] in multiset(tail);
        assert tail[i] == x || tail[i] in rest;
      }
    }
  }

  lemma OfRankHead<T>(x: T, rest: seq<T>, rank: T -> nat, r: nat)
    ensures OfRank([x] + rest, rank, r) == (if rank(x) == r then [x] else []) + OfRank(rest, rank, r)
  {
    assert ([x] + rest)[1..] == rest;
  }

  lemma {:induction false} InsertIsStable<T>(x: T, sorted: seq<T>, rank: T -> nat, r: nat)
    ensures OfRank(Insert(x, sorted, rank), rank, r) == OfRank([x] + sorted, rank, r)
  {
    hide OfRank;
    if sorted != [] && rank(x) > rank(sorted[0]) {
      var head, rest := sorted[0], sorted[1..];
      InsertIsStable(x, rest, rank, r);
      assert sorted == [head] + rest;
      OfRankHead(head, Insert(x, rest, rank), rank, r);
      OfRankHead(x, rest, rank, r);
      OfRankHead(head, rest, rank, r);
      OfRankHead(x, sorted, rank, r);
    }
  }

  lemma {:induction false} SortSorts<T>(s: seq<T>, rank: T -> nat)
    ensures Ascending(SortByRank(s, rank), rank)
    ensures multiset(SortByRank(s, rank)) == multiset(s)
  {
    hide Insert, Ascending;
    if s == [] {
      assert Ascending(s, rank) by { EmptyAscends(rank, s); }
    } else {
      var sorted := SortByRank(s[1..], rank);
      SortSorts(s[1..], rank);
      InsertSorts(s[0], sorted, rank);
      InsertKeeps(s[0], sorted, rank);
      assert s == [s[0]] + s[1..];
    }
  }

  lemma EmptyAscends<T>(rank: T -> nat, s: seq<T>)
    requires s == []
    ensures Ascending(s, rank)
  {
  }

  /** Elements of equal rank keep their order. */
  lemma {:induction false} SortIsStable<T>(s: seq<T>, rank: T -> nat, r: nat)
    ensures OfRank(SortByRank(s, rank), rank, r) == OfRank(s, rank, r)
  {
    hide Insert, OfRank;
    if s != [] {
      var head, rest := s[0], s[1..];
      var sorted := SortByRank(rest, rank);
      SortIsStable(rest, rank, r);
      InsertIsStable(head, sorted, rank, r);
      assert s == [head] + rest;
      OfRankHead(head, sorted, rank, r);
      OfRankHead(head, rest, rank, r);
    }
  }

  /** The merged body: old sections where they were, introduced ones after them by rank. */
  function MergeBody(fold: string -> string, body: Body, added: seq<Section>): Body {
    var all := MergeAll(fold, body.sections, added);
    var n := |body.sections|;
    Body(body.preamble, all[..n] + SortByRank(all[n..], (s: Section) => Rank(fold, s.heading)))
  }

  // ---- The source's objects: sections updated through a map ----

  class SectionObject {
    const heading: string
    var lines: seq<string>

    constructor (heading: string, lines: seq<string>)
      ensures this.heading == heading && this.lines == lines
    {
      this.heading := heading;
      this.lines := lines;
    }
  }

  function HeadingsOf(objects: seq<SectionObject>): seq<string> {
    seq(|objects|, i requires 0 <= i < |objects| => objects[i].heading)
  }

  function View(objects: seq<SectionObject>): (sections: seq<Section>)
    reads objects
    ensures |sections| == |objects|
    ensures forall i :: 0 <= i < |objects| ==> sections[i] == Section(objects[i].heading, objects[i].lines)
  {
    seq(|objects|, i requires 0 <= i < |objects| reads objects => Section(objects[i].heading, objects[i].lines))
  }

  /** The map holds, for every key, the last section with it. */
  ghost predicate Indexed(fold: string -> string, objects: seq<SectionObject>, byHeading: map<string, SectionObject>) {
    forall key ::
      var i := Find(fold, HeadingsOf(objects), key);
      (key in byHeading <==> i >= 0) && (i >= 0 ==> byHeading[key] == objects[i])
  }

  lemma ViewHeadings(objects: seq<SectionObject>)
    ensures SectionHeadings(View(objects)) == HeadingsOf(objects)
  {
  }

  lemma FindAppended(fold: string -> string, headings: seq<string>, heading: string, key: string)
    ensures Find(fold, headings + [heading], key)
         == if Key(fold, heading) == key then |headings| else Find(fold, headings, key)
  {
    hide Key;
    assert (headings + [heading])[..|headings|] == headings;
  }

  lemma IndexedAppended(
    fold: string -> string, objects: seq<SectionObject>, byHeading: map<string, SectionObject>, created: SectionObject)
    requires Indexed(fold, objects, byHeading)
    ensures Indexed(fold, objects + [created], byHeading[Key(fold, created.heading) := created])
  {
    hide Find, Key;
    assert HeadingsOf(objects + [created]) == HeadingsOf(objects) + [created.heading];
    forall key ensures Find(fold, HeadingsOf(objects + [created]), key)
                    == if Key(fold, created.heading) == key then |objects| else Find(fold, HeadingsOf(objects), key)
    {
      FindAppended(fold, HeadingsOf(objects), created.heading, key);
    }
  }

  /** splitSections: one object per heading, lines pushed onto the current one. */
  method SplitIntoObjects(lines: seq<string>) returns (preamble: seq<string>, objects: seq<SectionObject>)
    ensures forall i :: 0 <= i < |objects| ==> fresh(objects[i])
    ensures Distinct(objects)
    ensures Body(preamble, View(objects)) == SplitSections(lines)
  {
    hide SectionHeading;
    preamble, objects := [], [];
    for k := 0 to |lines|
      invariant forall i :: 0 <= i < |objects| ==> fresh(objects[i])
      invariant Distinct(objects)
      invariant Body(preamble, View(objects)) == SplitSections(lines[..k])
    {
      ghost var before := Body(preamble, View(objects));
      assert lines[..k + 1][..k] == lines[..k];
      var heading := SectionHeading(lines[k]);
      if heading.Some? {
        var current := new SectionObject(heading.value, []);
        objects := objects + [current];
        assert View(objects) == before.sections + [Section(heading.value, [])];
      } else if objects != [] {
        var n := |objects| - 1;
        objects[n].lines := objects[n].lines + [lines[k]];
        assert View(objects) == before.sections[n := Section(before.sections[n].heading, before.sections[n].lines + [lines[k]])];
      } else {
        preamble := preamble + [lines[k]];
      }
      assert Body(preamble, View(objects)) == AddLine(before, lines[k]);
    }
    assert lines[..|lines|] == lines;
  }

  /** One fragment section: onto the object its key finds, or a new object. */
  method AddSection(
    fold: string -> string, objects: seq<SectionObject>, byHeading: map<string, SectionObject>, section: Section)
    returns (all: seq<SectionObject>, index: map<string, SectionObject>)
    requires Distinct(objects) && Indexed(fold, objects, byHeading)
    modifies objects
    ensures Distinct(all) && Indexed(fold, all, index)
    ensures objects <= all && forall i :: |objects| <= i < |all| ==> fresh(all[i])
    ensures View(all) == MergeOne(fold, old(View(objects)), section)
  {
    hide Key, Find, TrimBlankLines;
    var key := Key(fold, section.heading);
    ghost var before := View(objects);
    ViewHeadings(objects);
    ghost var i := Find(fold, HeadingsOf(objects), key);
    if key in byHeading {
      var existing := byHeading[key];
      assert existing == objects[i];
      var kept := TrimBlankLinesLoop(existing.lines);
      var added := TrimBlankLinesLoop(section.lines);
      existing.lines := kept + [""] + added;
      all, index := objects, byHeading;
      assert View(all) == before[i := Section(before[i].heading, Joined(before[i].lines, section.lines))];
    } else {
      var created := new SectionObject(section.heading, section.lines);
      IndexedAppended(fold, objects, byHeading, created);
      all, index := objects + [created], byHeading[key := created];
      assert View(all) == before + [section];
    }
  }

  method IndexSections(fold: string -> string, objects: seq<SectionObject>) returns (byHeading: map<string, SectionObject>)
    ensures Indexed(fold, objects, byHeading)
  {
    hide Key, Find;
    byHeading := map[];
    assert Indexed(fold, objects[..0], byHeading) by { EmptyIndex(fold); }
    for i := 0 to |objects|
      invariant Indexed(fold, objects[..i], byHeading)
    {
      IndexedAppended(fold, objects[..i], byHeading, objects[i]);
      assert objects[..i + 1] == objects[..i] + [objects[i]];
      byHeading := byHeading[Key(fold, objects[i].heading) := objects[i]];
    }
    assert objects[..|objects|] == objects;
  }

  lemma EmptyIndex(fold: string -> string)
    ensures Indexed(fold, [], map[])
  {
  }

  /** All sections of all fragments, in order. */
  function Flatten(fragments: seq<seq<Section>>): seq<Section> {
    if fragments == [] then [] else Flatten(fragments[..|fragments| - 1]) + fragments[|fragments| - 1]
  }

  /** The sections of one fragment, in order. */
  method AddFragment(
    fold: string -> string, objects: seq<SectionObject>, byHeading: map<string, SectionObject>, fragment: seq<Section>)
    returns (all: seq<SectionObject>, index: map<string, SectionObject>)
    requires Distinct(objects) && Indexed(fold, objects, byHeading)
    modifies objects
    ensures Distinct(all) && Indexed(fold, all, index)
    ensures objects <= all && forall i :: |objects| <= i < |all| ==> fresh(all[i])
    ensures View(all) == MergeAll(fold, old(View(objects)), fragment)
  {
    hide Indexed, MergeOne;
    all, index := objects, byHeading;
    for j := 0 to |fragment|
      invariant Distinct(all) && Indexed(fold, all, index)
      invariant objects <= all && forall i :: |objects| <= i < |all| ==> fresh(all[i])
      invariant View(all) == MergeAll(fold, old(View(objects)), fragment[..j])
    {
      assert fragment[..j + 1][..j] == fragment[..j];
      all, index := AddSection(fold, all, index, fragment[j]);
    }
    assert fragment[..|fragment|] == fragment;
  }

  lemma {:induction false} MergeAllConcat(fold: string -> string, sections: seq<Section>, a: seq<Section>, b: seq<Section>)
    ensures MergeAll(fold, sections, a + b) == MergeAll(fold, MergeAll(fold, sections, a), b)
  {
    hide MergeOne;
    if b == [] {
      assert a + b == a;
    } else {
      assert (a + b)[..|a + b| - 1] == a + b[..|b| - 1];
      MergeAllConcat(fold, sections, a, b[..|b| - 1]);
    }
  }

  /** mergeUnreleasedBody. The objects are the method's own; what it returns is their final contents. */
  method MergeUnreleasedBody(fold: string -> string, lines: seq<string>, fragments: seq<seq<Section>>) returns (body: Body)
    ensures body == MergeBody(fold, SplitSections(lines), Flatten(fragments))
  {
    hide Indexed, MergeAll, SplitSections, Rank;
    var preamble, objects := SplitIntoObjects(lines);
    ghost var sections := View(objects);
    var n := |objects|;
    var index := IndexSections(fold, objects);
    var all := objects;
    assert MergeAll(fold, sections, []) == sections by { MergeNothing(fold, sections); }
    for i := 0 to |fragments|
      invariant Distinct(all) && Indexed(fold, all, index) && objects <= all
      invariant forall j :: 0 <= j < |all| ==> fresh(all[j])
      invariant View(all) == MergeAll(fold, sections, Flatten(fragments[..i]))
    {
      assert fragments[..i + 1][..i] == fragments[..i];
      MergeAllConcat(fold, sections, Flatten(fragments[..i]), fragments[i]);
      all, index := AddFragment(fold, all, index, fragments[i]);
    }
    assert fragments[..|fragments|] == fragments;
    var introduced := SortByRank(View(all[n..]), (s: Section) => Rank(fold, s.heading));
    assert View(all[..n]) == View(all)[..n] && View(all[n..]) == View(all)[n..];
    body := Body(preamble, View(all[..n]) + introduced);
  }

  lemma MergeNothing(fold: string -> string, sections: seq<Section>)
    ensures MergeAll(fold, sections, []) == sections
  {
  }
}
