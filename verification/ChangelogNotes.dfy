/** What merging fragments conserves: every note, the order of notes under a key, and the order of sections. */
module ChangelogNotes {
  import opened Lists
  import opened ChangelogSections
  import opened ChangelogPrint
  import opened ChangelogMerge

  // ---- Notes of sections ----

  lemma {:induction false} SectionNotesConcat(a: seq<Section>, b: seq<Section>)
    ensures SectionNotes(a + b) == SectionNotes(a) + SectionNotes(b)
  {
    hide Notes;
    if b == [] {
      assert a + b == a;
    } else {
      assert (a + b)[..|a + b| - 1] == a + b[..|b| - 1];
      SectionNotesConcat(a, b[..|b| - 1]);
    }
  }

  lemma SectionNotesOne(section: Section)
    ensures SectionNotes([section]) == Notes(section.lines)
  {
    hide Notes;
    assert [section][..0] == [];
  }

  /** The notes under one key, in the order they are printed. */
  function KeyNotes(fold: string -> string, sections: seq<Section>, key: string): seq<string> {
    if sections == [] then []
    else
      KeyNotes(fold, sections[..|sections| - 1], key)
      + NotesUnder(fold, sections[|sections| - 1], key)
  }

  function NotesUnder(fold: string -> string, section: Section, key: string): seq<string> {
    if Key(fold, section.heading) == key then Notes(section.lines) else []
  }

  lemma {:induction false} KeyNotesConcat(fold: string -> string, a: seq<Section>, b: seq<Section>, key: string)
    ensures KeyNotes(fold, a + b, key) == KeyNotes(fold, a, key) + KeyNotes(fold, b, key)
  {
    hide NotesUnder;
    if b == [] {
      assert a + b == a;
    } else {
      assert (a + b)[..|a + b| - 1] == a + b[..|b| - 1];
      KeyNotesConcat(fold, a, b[..|b| - 1], key);
    }
  }

  lemma KeyNotesOne(fold: string -> string, section: Section, key: string)
    ensures KeyNotes(fold, [section], key) == NotesUnder(fold, section, key)
  {
    hide NotesUnder;
    assert [section][..0] == [];
  }

  predicate NoKey(fold: string -> string, sections: seq<Section>, key: string) {
    forall i :: 0 <= i < |sections| ==> Key(fold, sections[i].heading) != key
  }

  lemma {:induction false} NoKeyNoNotes(fold: string -> string, sections: seq<Section>, key: string)
    requires NoKey(fold, sections, key)
    ensures KeyNotes(fold, sections, key) == []
  {
    hide Key, Notes;
    if sections != [] {
      NoKeyNoNotes(fold, sections[..|sections| - 1], key);
    }
  }

  // ---- One section merged ----

  lemma JoinedNotes(kept: seq<string>, added: seq<string>)
    ensures Notes(Joined(kept, added)) == Notes(kept) + Notes(added)
  {
    hide Notes, TrimBlankLines;
    NotesConcat(TrimBlankLines(kept) + [""], TrimBlankLines(added));
    NotesConcat(TrimBlankLines(kept), [""]);
    NotesOne("");
    EmptyIsBlank();
    TrimKeepsNotes(kept);
    TrimKeepsNotes(added);
  }

  lemma {:induction false} ReplaceNotes(fold: string -> string, sections: seq<Section>, i: nat, lines: seq<string>, key: string)
    requires i < |sections| && NoKey(fold, sections[i + 1..], Key(fold, sections[i].heading))
    ensures KeyNotes(fold, sections[i := Section(sections[i].heading, Joined(sections[i].lines, lines))], key)
         == KeyNotes(fold, sections, key) + if Key(fold, sections[i].heading) == key then Notes(lines) else []
  {
    hide Notes, Key, KeyNotes, Joined, NoKey;
    var was, now := sections[i], Section(sections[i].heading, Joined(sections[i].lines, lines));
    var a, b := sections[..i], sections[i + 1..];
    assert sections == a + [was] + b && sections[i := now] == a + [now] + b;
    KeyNotesConcat(fold, a + [was], b, key);
    KeyNotesConcat(fold, a, [was], key);
    KeyNotesConcat(fold, a + [now], b, key);
    KeyNotesConcat(fold, a, [now], key);
    KeyNotesOne(fold, was, key);
    KeyNotesOne(fold, now, key);
    JoinedNotes(was.lines, lines);
    if Key(fold, was.heading) == key {
      NoKeyNoNotes(fold, b, key);
    }
  }

  lemma ReplaceTotal(sections: seq<Section>, i: nat, lines: seq<string>)
    requires i < |sections|
    ensures multiset(SectionNotes(sections[i := Section(sections[i].heading, Joined(sections[i].lines, lines))]))
         == multiset(SectionNotes(sections)) + multiset(Notes(lines))
  {
    hide Notes, SectionNotes, Joined;
    var was, now := sections[i], Section(sections[i].heading, Joined(sections[i].lines, lines));
    var a, b := sections[..i], sections[i + 1..];
    assert sections == a + [was] + b && sections[i := now] == a + [now] + b;
    SectionNotesConcat(a + [was], b);
    SectionNotesConcat(a, [was]);
    SectionNotesConcat(a + [now], b);
    SectionNotesConcat(a, [now]);
    SectionNotesOne(was);
    SectionNotesOne(now);
    JoinedNotes(was.lines, lines);
  }

  lemma MergeOneNotes(fold: string -> string, sections: seq<Section>, section: Section, key: string)
    ensures KeyNotes(fold, MergeOne(fold, sections, section), key)
         == KeyNotes(fold, sections, key) + NotesUnder(fold, section, key)
    ensures multiset(SectionNotes(MergeOne(fold, sections, section)))
         == multiset(SectionNotes(sections)) + multiset(Notes(section.lines))
  {
    hide Notes, Key, KeyNotes, SectionNotes, Joined;
    var i := Find(fold, SectionHeadings(sections), Key(fold, section.heading));
    if i < 0 {
      KeyNotesConcat(fold, sections, [section], key);
      KeyNotesOne(fold, section, key);
      SectionNotesConcat(sections, [section]);
      SectionNotesOne(section);
    } else {
      assert Key(fold, SectionHeadings(sections)[i]) == Key(fold, section.heading);
      forall j | i < j < |sections| ensures Key(fold, sections[j].heading) != Key(fold, sections[i].heading) {
        assert Key(fold, SectionHeadings(sections)[j]) != Key(fold, section.heading);
      }
      assert NoKey(fold, sections[i + 1..], Key(fold, sections[i].heading));
      ReplaceNotes(fold, sections, i, section.lines, key);
      ReplaceTotal(sections, i, section.lines);
    }
  }

  lemma {:induction false} MergeAllKeyNotes(fold: string -> string, sections: seq<Section>, added: seq<Section>, key: string)
    ensures KeyNotes(fold, MergeAll(fold, sections, added), key)
         == KeyNotes(fold, sections, key) + KeyNotes(fold, added, key)
  {
    hide KeyNotes, NotesUnder, MergeOne, SectionNotes, Notes;
    if added == [] {
      NoKeyNoNotes(fold, added, key);
    } else {
      var front, last := added[..|added| - 1], added[|added| - 1];
      MergeAllKeyNotes(fold, sections, front, key);
      MergeOneNotes(fold, MergeAll(fold, sections, front), last, key);
      assert added == front + [last];
      KeyNotesConcat(fold, front, [last], key);
      KeyNotesOne(fold, last, key);
    }
  }

  lemma {:induction false} MergeAllTotal(fold: string -> string, sections: seq<Section>, added: seq<Section>)
    ensures multiset(SectionNotes(MergeAll(fold, sections, added)))
         == multiset(SectionNotes(sections)) + multiset(SectionNotes(added))
  {
    hide KeyNotes, NotesUnder, MergeOne, Notes;
    if added == [] {
      assert SectionNotes(added) == [];
    } else {
      var front, last := added[..|added| - 1], added[|added| - 1];
      MergeAllTotal(fold, sections, front);
      MergeOneNotes(fold, MergeAll(fold, sections, front), last, "");
    }
  }

  // ---- Which sections there are ----

  function KeysOf(fold: string -> string, headings: seq<string>): set<string> {
    set i | 0 <= i < |headings| :: Key(fold, headings[i])
  }

  /** From index `n` on, every key is the only one of its kind. */
  predicate UniqueFrom(fold: string -> string, headings: seq<string>, n: nat) {
    forall i, j :: 0 <= i < j < |headings| && n <= j ==> Key(fold, headings[i]) != Key(fold, headings[j])
  }

  lemma MergeOneHeadings(fold: string -> string, sections: seq<Section>, section: Section)
    ensures SectionHeadings(MergeOne(fold, sections, section))
         == SectionHeadings(sections)
            + if Key(fold, section.heading) in KeysOf(fold, SectionHeadings(sections)) then [] else [section.heading]
  {
    hide Key, Joined;
    var headings, key := SectionHeadings(sections), Key(fold, section.heading);
    var i := Find(fold, headings, key);
    if i >= 0 {
      assert Key(fold, headings[i]) in KeysOf(fold, headings);
      assert headings + [] == headings;
    } else {
      assert key !in KeysOf(fold, headings);
    }
  }

  lemma {:induction false} MergeAllHeadings(fold: string -> string, sections: seq<Section>, added: seq<Section>)
    ensures SectionHeadings(MergeAll(fold, sections, added))[..|sections|] == SectionHeadings(sections)
    ensures UniqueFrom(fold, SectionHeadings(MergeAll(fold, sections, added)), |sections|)
    ensures KeysOf(fold, SectionHeadings(MergeAll(fold, sections, added)))
         == KeysOf(fold, SectionHeadings(sections)) + KeysOf(fold, SectionHeadings(added))
  {
    hide MergeOne, Key;
    if added == [] {
      assert SectionHeadings(sections)[..|sections|] == SectionHeadings(sections);
      assert KeysOf(fold, SectionHeadings(added)) == {};
    } else {
      var front, last := added[..|added| - 1], added[|added| - 1];
      var before := SectionHeadings(MergeAll(fold, sections, front));
      MergeAllHeadings(fold, sections, front);
      MergeOneHeadings(fold, MergeAll(fold, sections, front), last);
      assert SectionHeadings(added) == SectionHeadings(front) + [last.heading];
      KeysAppend(fold, SectionHeadings(front), last.heading);
      KeysAppend(fold, before, last.heading);
      if Key(fold, last.heading) !in KeysOf(fold, before) {
        UniqueAppend(fold, before, last.heading, |sections|);
      } else {
        assert before + [] == before;
      }
    }
  }

  lemma KeysAppend(fold: string -> string, headings: seq<string>, heading: string)
    ensures KeysOf(fold, headings + [heading]) == KeysOf(fold, headings) + {Key(fold, heading)}
  {
    hide Key;
    var all := headings + [heading];
    assert Key(fold, all[|headings|]) in KeysOf(fold, all);
    forall i | 0 <= i < |headings| ensures Key(fold, headings[i]) in KeysOf(fold, all) {
      assert all[i] == headings[i];
    }
  }

  lemma UniqueAppend(fold: string -> string, headings: seq<string>, heading: string, n: nat)
    requires UniqueFrom(fold, headings, n) && Key(fold, heading) !in KeysOf(fold, headings)
    ensures UniqueFrom(fold, headings + [heading], n)
  {
    hide Key;
    forall i | 0 <= i < |headings| ensures Key(fold, headings[i]) != Key(fold, heading) {
      assert Key(fold, headings[i]) in KeysOf(fold, headings);
    }
  }

  // ---- The whole merge ----

  lemma {:induction false} InsertTotal(x: Section, sorted: seq<Section>, rank: Section -> nat)
    ensures multiset(SectionNotes(Insert(x, sorted, rank))) == multiset(Notes(x.lines)) + multiset(SectionNotes(sorted))
  {
    hide SectionNotes, Notes;
    SectionNotesOne(x);
    SectionNotesConcat([x], sorted);
    if sorted != [] && rank(x) > rank(sorted[0]) {
      var head, rest := [sorted[0]], sorted[1..];
      InsertTotal(x, rest, rank);
      assert sorted == head + rest;
      SectionNotesConcat(head, rest);
      SectionNotesConcat(head, Insert(x, rest, rank));
    }
  }

  lemma {:induction false} SortTotal(sections: seq<Section>, rank: Section -> nat)
    ensures multiset(SectionNotes(SortByRank(sections, rank))) == multiset(SectionNotes(sections))
  {
    hide SectionNotes, Notes, Insert;
    if sections != [] {
      var head, rest := sections[0], sections[1..];
      SortTotal(rest, rank);
      InsertTotal(head, SortByRank(rest, rank), rank);
      assert sections == [head] + rest;
      SectionNotesConcat([head], rest);
      SectionNotesOne(head);
    }
  }

  lemma {:induction false} InsertKeyNotes(
    fold: string -> string, x: Section, sorted: seq<Section>, rank: Section -> nat, key: string)
    requires Key(fold, x.heading) == key ==> NoKey(fold, sorted, key)
    ensures KeyNotes(fold, Insert(x, sorted, rank), key) == NotesUnder(fold, x, key) + KeyNotes(fold, sorted, key)
  {
    hide KeyNotes, Notes, Key;
    KeyNotesOne(fold, x, key);
    KeyNotesConcat(fold, [x], sorted, key);
    if sorted != [] && rank(x) > rank(sorted[0]) {
      var head, rest := [sorted[0]], sorted[1..];
      InsertKeyNotes(fold, x, rest, rank, key);
      assert sorted == head + rest;
      KeyNotesConcat(fold, head, rest, key);
      KeyNotesConcat(fold, head, Insert(x, rest, rank), key);
      if Key(fold, x.heading) == key {
        NoKeyNoNotes(fold, head, key);
      }
    }
  }

  predicate DistinctKeys(fold: string -> string, sections: seq<Section>) {
    forall i, j :: 0 <= i < j < |sections| ==> Key(fold, sections[i].heading) != Key(fold, sections[j].heading)
  }

  lemma {:induction false} SortKeyNotes(fold: string -> string, sections: seq<Section>, rank: Section -> nat, key: string)
    requires DistinctKeys(fold, sections)
    ensures KeyNotes(fold, SortByRank(sections, rank), key) == KeyNotes(fold, sections, key)
  {
    hide KeyNotes, Notes, Insert, Key;
    if sections != [] {
      var head, rest := sections[0], sections[1..];
      var sorted := SortByRank(rest, rank);
      SortKeyNotes(fold, rest, rank, key);
      assert sections == [head] + rest;
      KeyNotesConcat(fold, [head], rest, key);
      KeyNotesOne(fold, head, key);
      SortSorts(rest, rank);
      forall i | 0 <= i < |sorted| && Key(fold, head.heading) == key ensures Key(fold, sorted[i].heading) != key {
        assert sorted[i] in multiset(sorted);
        assert sorted[i] in rest;
      }
      InsertKeyNotes(fold, head, sorted, rank, key);
    }
  }

  lemma IntroducedKeysDistinct(fold: string -> string, sections: seq<Section>, added: seq<Section>)
    ensures DistinctKeys(fold, MergeAll(fold, sections, added)[|sections|..])
  {
    hide MergeAll, Key;
    var all := MergeAll(fold, sections, added);
    MergeAllHeadings(fold, sections, added);
    forall i, j | |sections| <= i < j < |all| ensures Key(fold, all[i].heading) != Key(fold, all[j].heading) {
      assert Key(fold, SectionHeadings(all)[i]) != Key(fold, SectionHeadings(all)[j]);
    }
  }

  /** Under every key the old notes come first and the fragments' notes follow, in order. */
  lemma MergeKeepsOrder(fold: string -> string, body: Body, added: seq<Section>, key: string)
    ensures MergeBody(fold, body, added).preamble == body.preamble
    ensures KeyNotes(fold, MergeBody(fold, body, added).sections, key)
         == KeyNotes(fold, body.sections, key) + KeyNotes(fold, added, key)
  {
    hide KeyNotes, MergeAll, Rank, DistinctKeys;
    var all, n := MergeAll(fold, body.sections, added), |body.sections|;
    var rank := (s: Section) => Rank(fold, s.heading);
    MergeAllKeyNotes(fold, body.sections, added, key);
    assert all == all[..n] + all[n..];
    KeyNotesConcat(fold, all[..n], all[n..], key);
    KeyNotesConcat(fold, all[..n], SortByRank(all[n..], rank), key);
    IntroducedKeysDistinct(fold, body.sections, added);
    SortKeyNotes(fold, all[n..], rank, key);
  }

  /** No note is lost and none is made up. */
  lemma MergeKeepsNotes(fold: string -> string, body: Body, added: seq<Section>)
    ensures multiset(BodyNotes(MergeBody(fold, body, added))) == multiset(BodyNotes(body)) + multiset(SectionNotes(added))
  {
    hide SectionNotes, MergeAll, Rank, Notes;
    var all, n := MergeAll(fold, body.sections, added), |body.sections|;
    var rank := (s: Section) => Rank(fold, s.heading);
    MergeAllTotal(fold, body.sections, added);
    assert all == all[..n] + all[n..];
    SectionNotesConcat(all[..n], all[n..]);
    SectionNotesConcat(all[..n], SortByRank(all[n..], rank));
    SortTotal(all[n..], rank);
  }

  /**
   * The old sections keep their places and headings; every key a fragment brings is then present;
   * a key that was not there before gets exactly one section, and those follow in rank order.
   */
  lemma MergeIntroducesOnce(fold: string -> string, body: Body, added: seq<Section>)
    ensures SectionHeadings(MergeBody(fold, body, added).sections)[..|body.sections|] == SectionHeadings(body.sections)
    ensures KeysOf(fold, SectionHeadings(MergeBody(fold, body, added).sections))
         == KeysOf(fold, SectionHeadings(body.sections)) + KeysOf(fold, SectionHeadings(added))
    ensures UniqueFrom(fold, SectionHeadings(MergeBody(fold, body, added).sections), |body.sections|)
    ensures Ascending(MergeBody(fold, body, added).sections[|body.sections|..], (s: Section) => Rank(fold, s.heading))
  {
    hide MergeAll, Rank, Ascending, Key;
    var all, n := MergeAll(fold, body.sections, added), |body.sections|;
    var rank := (s: Section) => Rank(fold, s.heading);
    var merged := MergeBody(fold, body, added).sections;
    MergeAllHeadings(fold, body.sections, added);
    SortSorts(all[n..], rank);
    assert merged[n..] == SortByRank(all[n..], rank) && merged[..n] == all[..n];
    assert SectionHeadings(merged)[..n] == SectionHeadings(all)[..n];
    SameKeys(fold, all, merged, n);
    SortedUnique(fold, all, merged, n);
  }

  lemma SameKeys(fold: string -> string, all: seq<Section>, merged: seq<Section>, n: nat)
    requires n <= |all| && n <= |merged| && merged[..n] == all[..n] && multiset(merged[n..]) == multiset(all[n..])
    ensures KeysOf(fold, SectionHeadings(merged)) == KeysOf(fold, SectionHeadings(all))
  {
    hide Key;
    KeysWithin(fold, all, merged, n);
    KeysWithin(fold, merged, all, n);
  }

  lemma KeysWithin(fold: string -> string, a: seq<Section>, b: seq<Section>, n: nat)
    requires n <= |a| && n <= |b| && a[..n] == b[..n] && multiset(a[n..]) == multiset(b[n..])
    ensures KeysOf(fold, SectionHeadings(a)) <= KeysOf(fold, SectionHeadings(b))
  {
    hide Key;
    forall i | 0 <= i < |a| ensures Key(fold, a[i].heading) in KeysOf(fold, SectionHeadings(b)) {
      if i < n {
        assert a[i] == a[..n][i] == b[..n][i] == b[i];
        assert Key(fold, SectionHeadings(b)[i]) in KeysOf(fold, SectionHeadings(b));
      } else {
        assert a[i] == a[n..][i - n];
        assert a[i] in multiset(b[n..]);
        var j :| 0 <= j < |b[n..]| && b[n..][j] == a[i];
        assert Key(fold, SectionHeadings(b)[n + j]) in KeysOf(fold, SectionHeadings(b));
      }
    }
  }

  lemma SortedUnique(fold: string -> string, all: seq<Section>, merged: seq<Section>, n: nat)
    requires n <= |all| && n <= |merged| && merged[..n] == all[..n] && multiset(merged[n..]) == multiset(all[n..])
    requires UniqueFrom(fold, SectionHeadings(all), n)
    ensures UniqueFrom(fold, SectionHeadings(merged), n)
  {
    hide Key;
    var tail, sorted := all[n..], merged[n..];
    forall i, j | 0 <= i < j < |tail| ensures Key(fold, tail[i].heading) != Key(fold, tail[j].heading) {
      assert tail[i] == all[n + i] && tail[j] == all[n + j];
      assert SectionHeadings(all)[n + i] == tail[i].heading && SectionHeadings(all)[n + j] == tail[j].heading;
    }
    forall i, j | 0 <= i < j < |merged| && n <= j ensures Key(fold, merged[i].heading) != Key(fold, merged[j].heading) {
      if i < n {
        assert merged[j] == sorted[j - n] && sorted[j - n] in multiset(tail);
        var k :| 0 <= k < |tail| && tail[k] == merged[j];
        assert merged[i] == merged[..n][i] == all[..n][i] == all[i] && merged[j] == all[n + k];
        assert SectionHeadings(all)[i] == all[i].heading && SectionHeadings(all)[n + k] == all[n + k].heading;
      } else {
        PermutedDistinct(fold, tail, sorted, i - n, j - n);
        assert merged[i] == sorted[i - n] && merged[j] == sorted[j - n];
      }
    }
  }

  lemma PermutedDistinct(fold: string -> string, tail: seq<Section>, sorted: seq<Section>, i: nat, j: nat)
    requires multiset(tail) == multiset(sorted) && DistinctKeys(fold, tail) && i < j < |sorted|
    ensures Key(fold, sorted[i].heading) != Key(fold, sorted[j].heading)
  {
    hide Key;
    var x, y := sorted[i], sorted[j];
    assert x in multiset(tail) && y in multiset(tail);
    var p :| 0 <= p < |tail| && tail[p] == x;
    var q :| 0 <= q < |tail| && tail[q] == y;
    OnceCounted(fold, tail, p);
    TwiceCounted(sorted, i, j);
  }

  lemma OnceCounted(fold: string -> string, tail: seq<Section>, p: nat)
    requires DistinctKeys(fold, tail) && p < |tail|
    ensures multiset(tail)[tail[p]] == 1
  {
    hide Key;
    var x := tail[p];
    assert tail == tail[..p] + [x] + tail[p + 1..];
    assert x !in tail[..p] && x !in tail[p + 1..];
  }
}
