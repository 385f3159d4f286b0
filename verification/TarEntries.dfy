/**
 * Lists of archive entries: their order by path, the totals the limits speak about, and
 * why the sorted list does not depend on the order the entries came in.
 */
module TarEntries {
  import opened Lists
  import opened Utf8
  import opened TarFormat
  import opened TarWriter

  /** What the parser promises of every entry it returns. */
  predicate WellFormed(e: TarEntry) {
    && ValidUtf8(e.path)
    && SafePath(e.path)
    && SafeMode(e.mode)
    && (e.kind == Directory ==> e.data == [])
  }

  predicate AllWellFormed(entries: seq<TarEntry>) {
    forall i :: 0 <= i < |entries| ==> WellFormed(entries[i])
  }

  predicate DistinctPaths(entries: seq<TarEntry>) {
    forall i, j :: 0 <= i < j < |entries| ==> entries[i].path != entries[j].path
  }

  function FileCount(entries: seq<TarEntry>): nat {
    if entries == [] then 0 else (if entries[0].kind == File then 1 else 0) + FileCount(entries[1..])
  }

  function FileBytes(entries: seq<TarEntry>): nat {
    if entries == [] then 0 else DataSize(entries[0]) + FileBytes(entries[1..])
  }

  function PathBytes(entries: seq<TarEntry>): nat {
    if entries == [] then 0 else |entries[0].path| + PathBytes(entries[1..])
  }

  /** One header block and the padded payload per member. */
  function MemberBytes(entries: seq<TarEntry>): nat {
    if entries == [] then 0 else 512 + PaddedSize(DataSize(entries[0])) + MemberBytes(entries[1..])
  }

  predicate WithinLimits(entries: seq<TarEntry>, limits: Limits) {
    && (forall i :: 0 <= i < |entries| ==> |entries[i].data| <= limits.maxEntryBytes)
    && FileCount(entries) <= limits.maxFileCount
    && FileBytes(entries) <= limits.maxUnpackedBytes
  }

  lemma {:induction false} TotalsConcat(a: seq<TarEntry>, b: seq<TarEntry>)
    ensures FileCount(a + b) == FileCount(a) + FileCount(b)
    ensures FileBytes(a + b) == FileBytes(a) + FileBytes(b)
    ensures PathBytes(a + b) == PathBytes(a) + PathBytes(b)
    ensures MemberBytes(a + b) == MemberBytes(a) + MemberBytes(b)
  {
    if a == [] {
      assert a + b == b;
    } else {
      assert (a + b)[1..] == a[1..] + b;
      TotalsConcat(a[1..], b);
    }
  }

  // ---- Sorting ----

  predicate SortedByPath(entries: seq<TarEntry>) {
    forall i, j :: 0 <= i < j < |entries| ==> PathLess(entries[i], entries[j])
  }

  lemma {:induction false} InsertContents(e: TarEntry, sorted: seq<TarEntry>)
    ensures multiset(Insert(e, sorted)) == multiset(sorted) + multiset{e}
    ensures FileCount(Insert(e, sorted)) == FileCount([e] + sorted)
    ensures FileBytes(Insert(e, sorted)) == FileBytes([e] + sorted)
    ensures PathBytes(Insert(e, sorted)) == PathBytes([e] + sorted)
    ensures MemberBytes(Insert(e, sorted)) == MemberBytes([e] + sorted)
  {
    assert ([e] + sorted)[1..] == sorted;
    if sorted != [] && PathLess(sorted[0], e) {
      InsertContents(e, sorted[1..]);
      assert sorted == [sorted[0]] + sorted[1..];
      var rest := Insert(e, sorted[1..]);
      assert ([sorted[0]] + rest)[1..] == rest;
      assert ([e] + sorted[1..])[1..] == sorted[1..];
    }
  }

  lemma {:induction false} InsertSorted(e: TarEntry, sorted: seq<TarEntry>)
    requires SortedByPath(sorted)
    requires forall x :: x in sorted ==> x.path != e.path
    ensures SortedByPath(Insert(e, sorted))
  {
    hide LexLess;
    if sorted != [] {
      LexTotal(sorted[0].path, e.path);
      assert sorted[0] in sorted;
      if PathLess(sorted[0], e) {
        var rest := Insert(e, sorted[1..]);
        InsertSorted(e, sorted[1..]);
        InsertContents(e, sorted[1..]);
        forall x | x in rest ensures PathLess(sorted[0], x) {
          assert x in multiset(rest);
          assert x == e || x in sorted[1..];
        }
        PrependSorted(sorted[0], rest);
      } else {
        forall x | x in sorted ensures PathLess(e, x) {
          if x != sorted[0] {
            var i :| 0 <= i < |sorted| && sorted[i] == x;
            LexTransitive(e.path, sorted[0].path, x.path);
          }
        }
        PrependSorted(e, sorted);
      }
    }
  }

  lemma PrependSorted(e: TarEntry, sorted: seq<TarEntry>)
    requires SortedByPath(sorted) && forall x :: x in sorted ==> PathLess(e, x)
    ensures SortedByPath([e] + sorted)
  {
  }

  /** Sorting keeps the entries and every total, and orders distinct paths strictly. */
  lemma {:induction false} SortContents(entries: seq<TarEntry>)
    ensures multiset(SortByPath(entries)) == multiset(entries)
    ensures FileCount(SortByPath(entries)) == FileCount(entries)
    ensures FileBytes(SortByPath(entries)) == FileBytes(entries)
    ensures PathBytes(SortByPath(entries)) == PathBytes(entries)
    ensures MemberBytes(SortByPath(entries)) == MemberBytes(entries)
  {
    hide Insert, DataSize;
    if entries != [] {
      var sorted := SortByPath(entries[1..]);
      SortContents(entries[1..]);
      InsertContents(entries[0], sorted);
      assert entries == [entries[0]] + entries[1..];
      assert ([entries[0]] + sorted)[1..] == sorted;
    }
  }

  lemma {:induction false} SortSorts(entries: seq<TarEntry>)
    requires DistinctPaths(entries)
    ensures SortedByPath(SortByPath(entries))
  {
    if entries != [] {
      var sorted := SortByPath(entries[1..]);
      SortSorts(entries[1..]);
      SortContents(entries[1..]);
      forall x | x in sorted ensures x.path != entries[0].path {
        assert x in multiset(sorted) && x in entries[1..];
      }
      InsertSorted(entries[0], sorted);
    }
  }

  /** A strictly sorted list is determined by its entries. */
  lemma {:induction false} SortedUnique(a: seq<TarEntry>, b: seq<TarEntry>)
    requires SortedByPath(a) && SortedByPath(b) && multiset(a) == multiset(b)
    ensures a == b
  {
    assert |multiset(a)| == |a| && |multiset(b)| == |b|;
    if a != [] {
      HeadsAgree(a, b);
      assert a == [a[0]] + a[1..] && b == [b[0]] + b[1..];
      assert multiset(a[1..]) == multiset(a) - multiset{a[0]};
      assert multiset(b[1..]) == multiset(b) - multiset{b[0]};
      SortedUnique(a[1..], b[1..]);
    }
  }

  lemma HeadsAgree(a: seq<TarEntry>, b: seq<TarEntry>)
    requires SortedByPath(a) && SortedByPath(b) && multiset(a) == multiset(b)
    requires a != [] && b != []
    ensures a[0] == b[0]
  {
    assert a[0] in multiset(b) && b[0] in multiset(a);
    var i :| 0 <= i < |b| && b[i] == a[0];
    var j :| 0 <= j < |a| && a[j] == b[0];
    if i > 0 && j > 0 {
      LexTransitive(a[0].path, b[0].path, a[0].path);
      LexIrreflexive(a[0].path);
      assert false;
    }
  }

  /** The sorted list depends only on which entries there are. */
  lemma SortIgnoresOrder(a: seq<TarEntry>, b: seq<TarEntry>)
    requires DistinctPaths(a) && DistinctPaths(b) && multiset(a) == multiset(b)
    ensures SortByPath(a) == SortByPath(b)
  {
    SortContents(a);
    SortContents(b);
    SortSorts(a);
    SortSorts(b);
    SortedUnique(SortByPath(a), SortByPath(b));
  }

  /** Sorting carries over whatever holds of all entries, and distinct paths stay distinct. */
  lemma SortKeeps(entries: seq<TarEntry>, limits: Limits)
    requires AllWellFormed(entries) && DistinctPaths(entries) && WithinLimits(entries, limits)
    ensures AllWellFormed(SortByPath(entries)) && DistinctPaths(SortByPath(entries))
    ensures WithinLimits(SortByPath(entries), limits)
  {
    var sorted := SortByPath(entries);
    SortContents(entries);
    SortSorts(entries);
    forall i | 0 <= i < |sorted| ensures WellFormed(sorted[i]) && |sorted[i].data| <= limits.maxEntryBytes {
      assert sorted[i] in multiset(entries);
    }
    forall i, j | 0 <= i < j < |sorted| ensures sorted[i].path != sorted[j].path {
      LexIrreflexive(sorted[i].path);
    }
  }
}
